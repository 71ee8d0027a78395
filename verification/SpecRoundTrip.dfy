/** The central law of the spec language: printing a spec canonically and parsing the
    result gives the same spec back, exactly for the well-formed ones. */
module SpecRoundTrip {
  import opened Text
  import opened Args
  import opened SpecLang

  /** The tails mean the same: same model and arguments, or the same uninterpreted text. */
  predicate SameTail(t: string, u: string) {
    ModelOf(t) == ModelOf(u) && (ModelOf(t).Err? ==> t == u)
  }

  predicate SameMeaning(a: Spec, b: Spec) {
    a.provider == b.provider && a.client == b.client && a.nickname == b.nickname && SameTail(a.tail, b.tail)
  }

  /** What a caller can look at before relying on the canonical form: a clean provider
      token, no key without a value, a trimmed nickname, and a canonical tail that is not
      empty, uses braces as the language does, holds no '#' and ends in no whitespace. */
  ghost predicate WellFormed(sp: Spec) {
    && CleanProvider(sp.provider)
    && NoEmptyList(sp.client)
    && Trimmed(sp.nickname)
    && PrintableTail(sp.tail)
  }

  ghost predicate PrintableTail(tail: string) {
    CanonicalTail(tail) != "" && CleanBase(CanonicalTail(tail))
  }

  /** Specs of the same meaning have the same canonical form. */
  lemma SameMeaningSameText(a: Spec, b: Spec)
    requires SameMeaning(a, b)
    ensures Render(a) == Render(b)
  {
  }

  // ------------------------------------------------------------ canonical tails

  lemma ModelHasNoQuestion(tail: string)
    requires ModelOf(tail).Ok?
    ensures ModelOf(tail).value.0 != "" && '?' !in ModelOf(tail).value.0 && NoEmptyList(ModelOf(tail).value.1)
  {
    ParseArgsNoEmptyList(Cut(tail, '?').1);
  }

  lemma CutAbsent(s: string, c: char)
    requires c !in s
    ensures Cut(s, c) == (s, "")
  {
  }

  lemma ModelOfPlain(model: string)
    requires model != "" && '?' !in model
    ensures ModelOf(model) == Ok((model, map[]))
  {
    CutAbsent(model, '?');
    ParseBlank();
  }

  /** A model with printed arguments splits into that model and those arguments. */
  lemma ModelOfPrinted(model: string, args: Values)
    requires model != "" && '?' !in model && NoEmptyList(args)
    ensures ModelOf(model + ArgSuffix(args)) == Ok((model, args))
  {
    if args == map[] {
      ModelOfPlain(model);
      assert model + ArgSuffix(args) == model;
    } else {
      BlockFacts(args);
      ArgSuffixText(model, args);
      ModelOfCut(model, Encode(args));
    }
  }

  /** Rewriting a tail canonically does not change what it means. */
  lemma CanonicalTailMeansSame(tail: string)
    ensures SameTail(tail, CanonicalTail(tail))
  {
    if ModelOf(tail).Ok? {
      ModelHasNoQuestion(tail);
      ModelOfPrinted(ModelOf(tail).value.0, ModelOf(tail).value.1);
    }
  }

  // ---------------------------------------------------------- trimming a tail

  lemma DecodeEncodedPairs(v: Values)
    requires NoEmptyList(v)
    ensures Encode(v) == Join(PairsOf(SortedKeys(v.Keys), v))
    ensures Collect(PairsOf(SortedKeys(v.Keys), v)) == v
  {
    SortedKeysEnumerate(v.Keys);
    CollectPairsOf(SortedKeys(v.Keys), v);
    assert Only(v, SortedKeys(v.Keys)) == v;
  }

  function JoinBefore(front: seq<Pair>): string {
    if front == [] then "" else Join(front) + "&"
  }

  /** A canonical argument list up to the '=' of its last pair. */
  function BeforeLastValue(front: seq<Pair>, k: string): string {
    JoinBefore(front) + Escape(k)
  }

  function Ahead(front: seq<Pair>, r: Result<seq<Pair>>): Result<seq<Pair>> {
    match r
    case Err => Err
    case Ok(a) => Ok(front + a)
  }

  lemma AheadTwice(p: Pair, front: seq<Pair>, r: Result<seq<Pair>>)
    ensures Ahead([p], Ahead(front, r)) == Ahead([p] + front, r)
  {
    if r.Ok? { Associative([p], front, r.value); }
  }

  /** Parsing encoded pairs followed by one more segment. */
  lemma {:induction false} ParsePairsThenSegment(front: seq<Pair>, seg: string)
    requires seg != "" && '&' !in seg
    ensures ParsePairs(JoinBefore(front) + seg) == Ahead(front, ParseSegment(seg))
  {
    if front == [] {
      assert JoinBefore(front) + seg == seg;
      assert ParseSegment(seg).Ok? ==> [] + ParseSegment(seg).value == ParseSegment(seg).value;
    } else {
      ParsePairsThenSegment(front[1..], seg);
      EncodePairFacts(front[0]);
      JoinBeforeStep(front, seg);
      ParsePairsStep(EncodePair(front[0]), JoinBefore(front[1..]) + seg);
      AheadTwice(front[0], front[1..], ParseSegment(seg));
      assert front == [front[0]] + front[1..];
    }
  }

  lemma JoinBeforeStep(front: seq<Pair>, seg: string)
    requires front != []
    ensures JoinBefore(front) + seg == EncodePair(front[0]) + ['&'] + (JoinBefore(front[1..]) + seg)
  {
  }

  lemma ParsePairsStep(e: string, rest: string)
    requires '&' !in e
    ensures ParsePairs(e + ['&'] + rest) ==
            match (ParseSegment(e), ParsePairs(rest)) { case (Ok(a), Ok(b)) => Ok(a + b) case _ => Err }
  {
    IndexOfFirst(e, '&', rest);
    var raw := e + ['&'] + rest;
    assert raw[..|e|] == e && raw[|e| + 1..] == rest;
  }

  lemma TrimmedOffIsNoEscape(s: string)
    ensures forall c :: c in s[|TrimRight(s)|..] ==> c != '%' && c != '+'
  {
    var n := |TrimRight(s)|;
    TrimRightTakesSpace(s);
    assert forall i :: n <= i < |s| ==> s[i] != '%' && s[i] != '+';
  }

  lemma LongerUnescapesLonger(cut: string, w: string)
    requires Unescape(cut).Ok? && w != "" && forall c :: c in w ==> c != '%' && c != '+'
    ensures Unescape(cut + w).Ok? && Unescape(cut + w) != Unescape(cut)
  {
    UnescapeAppend(cut, w);
  }

  /** An escaped value cut short where whitespace was trimmed decodes to something else. */
  lemma ShorterValueDiffers(val: string)
    requires TrimRight(Escape(val)) != Escape(val)
    ensures Unescape(TrimRight(Escape(val))) != Ok(val)
    ensures forall c :: c in TrimRight(Escape(val)) ==> Plain(c)
  {
    var ev := Escape(val);
    var cut := TrimRight(ev);
    var w := ev[|cut|..];
    EscapePlain(val);
    assert ev == cut + w;
    assert forall c :: c in cut ==> c in ev;
    TrimmedOffIsNoEscape(ev);
    UnescapeEscape(val);
    if Unescape(cut).Ok? { LongerUnescapesLonger(cut, w); }
  }

  lemma LastValue(front: seq<Pair>, k: string, x: string)
    ensures ListOf(Collect(front + [(k, x)]), k) != []
    ensures var l := ListOf(Collect(front + [(k, x)]), k); l[|l| - 1] == x
  {
    CollectAppend(front, (k, x));
  }

  /** Cutting the last value of a canonical argument list short changes the list. */
  lemma ShorterArgsDiffer(front: seq<Pair>, k: string, val: string)
    requires TrimRight(Escape(val)) != Escape(val)
    ensures ParseArgs(BeforeLastValue(front, k) + "=" + TrimRight(Escape(val))) != Ok(Collect(front + [(k, val)]))
  {
    var cut := TrimRight(Escape(val));
    var seg := Escape(k) + "=" + cut;
    var raw := BeforeLastValue(front, k) + "=" + cut;
    ConcatAssociative(JoinBefore(front), Escape(k), "=", cut);
    ShorterValueDiffers(val);
    if ParseArgs(raw).Ok? {
      SegmentNoSeparator(k, cut);
      ParsePairsThenSegment(front, seg);
      SegmentValue(k, cut);
      RawNotBlank(front, k, cut);
      if Unescape(cut).Ok? {
        LastValue(front, k, Unescape(cut).value);
        LastValue(front, k, val);
      }
    }
  }

  lemma SegmentNoSeparator(k: string, raw: string)
    requires forall c :: c in raw ==> Plain(c)
    ensures Escape(k) + "=" + raw != "" && '&' !in Escape(k) + "=" + raw
  {
    EscapePlain(k);
  }

  lemma RawNotBlank(front: seq<Pair>, k: string, cut: string)
    requires forall c :: c in cut ==> Plain(c)
    ensures TrimSpace(BeforeLastValue(front, k) + "=" + cut) != ""
  {
    var raw := BeforeLastValue(front, k) + "=" + cut;
    EscapePlain(k);
    JoinFacts(front);
    assert raw[|BeforeLastValue(front, k)|] == '=';
    EncodedNotBlank(raw);
  }

  lemma SegmentValue(k: string, raw: string)
    requires forall c :: c in raw ==> Plain(c)
    ensures ParseSegment(Escape(k) + "=" + raw) ==
            match Unescape(raw) { case Ok(v) => Ok([(k, v)]) case Err => Err }
  {
    EscapePlain(k);
    IndexOfFirst(Escape(k), '=', raw);
    assert Escape(k) + "=" + raw == Escape(k) + ['='] + raw;
    assert (Escape(k) + "=" + raw)[|Escape(k)|] == '=';
    UnescapeEscape(k);
  }

  lemma {:induction false} PairsOfNonEmpty(v: Values)
    requires NoEmptyList(v) && v != map[]
    ensures PairsOf(SortedKeys(v.Keys), v) != []
  {
    DecodeEncodedPairs(v);
  }

  lemma LastPair(pairs: seq<Pair>, front: seq<Pair>, k: string, val: string)
    requires pairs == front + [(k, val)]
    ensures Join(pairs) == BeforeLastValue(front, k) + "=" + Escape(val)
  {
    JoinAppend(front, (k, val));
    if front == [] {
      assert BeforeLastValue(front, k) == Escape(k);
    } else {
      ConcatAssociative(JoinBefore(front), Escape(k), "=", Escape(val));
    }
  }

  lemma TrimPrintedArgs(model: string, front: seq<Pair>, k: string, val: string)
    ensures TrimRight(model + "?" + (BeforeLastValue(front, k) + "=" + Escape(val))) ==
            model + "?" + (BeforeLastValue(front, k) + "=" + TrimRight(Escape(val)))
  {
    TrimRightSuffix(model + "?" + BeforeLastValue(front, k), '=', Escape(val));
    ConcatMiddle(model, "?", BeforeLastValue(front, k), "=", Escape(val));
    ConcatMiddle(model, "?", BeforeLastValue(front, k), "=", TrimRight(Escape(val)));
  }

  /** Trimming a canonical tail that ends in whitespace changes what it means. */
  lemma TrimChangesMeaning(tail: string)
    requires TrimRight(CanonicalTail(tail)) != CanonicalTail(tail)
    ensures !SameTail(tail, TrimRight(CanonicalTail(tail)))
  {
    if ModelOf(tail).Ok? {
      var (model, args) := ModelOf(tail).value;
      ModelHasNoQuestion(tail);
      if args == map[] {
        var t := TrimRight(model);
        assert CanonicalTail(tail) == model;
        assert forall c :: c in t ==> c in model;
        CutAbsent(t, '?');
        ParseBlank();
      } else {
        TrimChangesArgs(model, args);
      }
    }
  }

  /** The last pair of a canonical argument list. */
  lemma LastPairOf(args: Values) returns (front: seq<Pair>, k: string, val: string)
    requires NoEmptyList(args) && args != map[]
    ensures Encode(args) == BeforeLastValue(front, k) + "=" + Escape(val)
    ensures Collect(front + [(k, val)]) == args
  {
    var pairs := PairsOf(SortedKeys(args.Keys), args);
    PairsOfNonEmpty(args);
    DecodeEncodedPairs(args);
    front := pairs[..|pairs| - 1];
    k, val := pairs[|pairs| - 1].0, pairs[|pairs| - 1].1;
    assert pairs == front + [(k, val)];
    LastPair(pairs, front, k, val);
  }

  lemma TrimChangesArgs(model: string, args: Values)
    requires model != "" && '?' !in model && NoEmptyList(args) && args != map[]
    requires TrimRight(model + ArgSuffix(args)) != model + ArgSuffix(args)
    ensures ModelOf(TrimRight(model + ArgSuffix(args))) != Ok((model, args))
  {
    var front, k, val := LastPairOf(args);
    ArgSuffixText(model, args);
    TrimPrintedArgs(model, front, k, val);
    ShorterArgsDiffer(front, k, val);
    ModelOfCut(model, BeforeLastValue(front, k) + "=" + TrimRight(Escape(val)));
  }

  lemma ArgSuffixText(model: string, args: Values)
    requires args != map[]
    ensures model + ArgSuffix(args) == model + "?" + Encode(args)
  {
  }

  lemma ModelOfCut(model: string, raw: string)
    requires model != "" && '?' !in model
    ensures ModelOf(model + "?" + raw) ==
            match ParseArgs(raw) { case Ok(args) => Ok((model, args)) case Err => Err }
  {
    IndexOfFirst(model, '?', raw);
    assert model + "?" + raw == model + ['?'] + raw;
  }

  // --------------------------------------------------------------- round trip

  ghost predicate RoundTrips(sp: Spec) {
    var r := ParseSpec(Render(sp));
    r.Ok? && SameMeaning(sp, r.value)
  }

  lemma TrimTailAndNickname(t: string, nickname: string)
    requires Trimmed(nickname)
    ensures TrimRight(t + NicknameSuffix(nickname)) ==
            if nickname == "" then TrimRight(t) else t + NicknameSuffix(nickname)
  {
    if nickname == "" {
      assert t + NicknameSuffix(nickname) == t;
    } else {
      TrimRightSuffix(t, '#', nickname);
      assert t + NicknameSuffix(nickname) == t + ['#'] + nickname;
    }
  }

  lemma {:induction false} ScanMalformed(a: string, inBlock: bool, z: string)
    requires Scan(a, inBlock) == Malformed
    ensures Scan(a + "#" + z, inBlock) == Malformed
  {
    if a == "" {
      assert a + "#" + z == "#" + z;
    } else {
      assert (a + "#" + z)[1..] == a[1..] + "#" + z;
      var next := if a[0] == '{' then true else if a[0] == '}' then false else inBlock;
      if Scan(a[1..], next) == Malformed { ScanMalformed(a[1..], next, z); }
    }
  }

  lemma ModelInTail(tail: string, c: char)
    requires ModelOf(tail).Ok? && c in ModelOf(tail).value.0
    ensures c in tail
  {
  }

  /** Nothing canonical printing adds to a tail is a '#'. */
  lemma CanonicalTailNoHash(tail: string)
    requires '#' !in tail
    ensures '#' !in CanonicalTail(tail)
  {
    if ModelOf(tail).Ok? {
      var (model, args) := ModelOf(tail).value;
      ModelHasNoQuestion(tail);
      ArgSuffixNeutral(args);
      if '#' in model { ModelInTail(tail, '#'); }
    }
  }

  lemma NoHashBeforeNickname(t: string)
    requires Scan(t, false).NicknameAt?
    ensures '#' in t && '#' !in TrimRight(t[..Scan(t, false).pos])
  {
    var before := t[..Scan(t, false).pos];
    ScanBeforeNickname(t, false);
    ScanAccepts(before);
    assert forall c :: c in TrimRight(before) ==> c in before;
  }

  /** How the body `y` printed for a tail and a nickname is read back. */
  ghost predicate ReadBack(y: string, t: string, nickname: string) {
    match Scan(t, false)
    case Malformed => Body(y) == Err
    case NoNickname => Body(y) == Ok((TrimRight(t), nickname))
    case NicknameAt(i) => Body(y).Ok? && Body(y).value.0 == TrimRight(t[..i])
  }

  lemma PrintedTailAlone(t: string)
    ensures ReadBack(TrimRight(t), t, "")
  {
    TrimRightNeutral(t);
    match Scan(t, false)
    case Malformed =>
    case NoNickname =>
    case NicknameAt(i) =>
      assert TrimRight(t)[..i] == t[..i];
  }

  lemma PrintedWithNickname(t: string, nickname: string)
    requires Trimmed(nickname)
    ensures ReadBack(t + "#" + nickname, t, nickname)
  {
    var y := t + "#" + nickname;
    match Scan(t, false)
    case Malformed =>
      ScanMalformed(t, false, nickname);
    case NoNickname =>
      ScanHash(t, false, nickname);
      assert y[..|t|] == t && y[|t| + 1..] == nickname;
      TrimKeepsTrimmed(nickname);
    case NicknameAt(i) =>
      Associative(t, "#", nickname);
      ScanSettled(t, false, "#" + nickname);
      assert y[..i] == t[..i];
  }

  lemma PrintedBody(t: string, nickname: string)
    requires Trimmed(nickname)
    ensures ReadBack(TrimRight(t + NicknameSuffix(nickname)), t, nickname)
  {
    TrimTailAndNickname(t, nickname);
    if nickname == "" {
      PrintedTailAlone(t);
      assert t + NicknameSuffix(nickname) == t;
    } else {
      PrintedWithNickname(t, nickname);
      Associative(t, "#", nickname);
    }
  }

  lemma CleanTailReadBack(t: string, nickname: string)
    requires t != "" && CleanBase(t) && Trimmed(nickname)
    ensures Body(TrimRight(t + NicknameSuffix(nickname))) == Ok((t, nickname))
  {
    PrintedBody(t, nickname);
  }

  /** Well-formed specs come back unchanged. */
  lemma WellFormedRoundTrips(sp: Spec)
    requires WellFormed(sp)
    ensures RoundTrips(sp)
  {
    var t := CanonicalTail(sp.tail);
    ParsePrinted(sp.provider, sp.client, t + NicknameSuffix(sp.nickname));
    CleanTailReadBack(t, sp.nickname);
    assert ParseSpec(Render(sp)) == Ok(Spec(sp.provider, sp.client, t, sp.nickname));
    CanonicalTailMeansSame(sp.tail);
  }

  /** Only well-formed specs come back unchanged. */
  lemma RoundTripNeedsWellFormed(sp: Spec)
    requires CleanProvider(sp.provider) && NoEmptyList(sp.client) && Trimmed(sp.nickname)
    requires RoundTrips(sp)
    ensures PrintableTail(sp.tail)
  {
    var t := CanonicalTail(sp.tail);
    var p := ParseSpec(Render(sp)).value;
    ParsePrinted(sp.provider, sp.client, t + NicknameSuffix(sp.nickname));
    PrintedBody(t, sp.nickname);
    match Scan(t, false)
    case Malformed =>
    case NicknameAt(i) =>
      NoHashBeforeNickname(t);
      CanonicalTailNoHash(p.tail);
    case NoNickname =>
      if TrimRight(t) != t { TrimChangesMeaning(sp.tail); }
  }

  /** The law and its exact condition, for every spec value whatever its fields hold. */
  lemma RoundTripIff(sp: Spec)
    ensures RoundTrips(sp) <==> WellFormed(sp)
  {
    if RoundTrips(sp) {
      ParsedIsClean(Render(sp));
      RoundTripNeedsWellFormed(sp);
    }
    if WellFormed(sp) { WellFormedRoundTrips(sp); }
  }

  // ------------------------------------------------------- the law on fields

  /** The whitespace a printed model and arguments would lose. */
  ghost predicate EndsClean(model: string, args: Values) {
    TrailingSpace(if args == map[] then model else Encode(args)) == 0
  }

  /** A printed model with arguments is printable exactly when the model uses braces as the
      language does, holds no '#', and nothing would be trimmed off the end. */
  lemma PrintableIff(model: string, args: Values)
    requires model != "" && '?' !in model && NoEmptyList(args)
    ensures PrintableTail(model + ArgSuffix(args)) <==> Scan(model, false) == NoNickname && EndsClean(model, args)
  {
    var tail := model + ArgSuffix(args);
    ModelOfPrinted(model, args);
    ArgSuffixNeutral(args);
    ScanAppend(model, false, ArgSuffix(args));
    if args == map[] {
      assert tail == model;
    } else {
      ArgSuffixText(model, args);
      TrailingSpaceSuffix(model, '?', Encode(args));
    }
  }

  /** The law for a spec given by its fields, whatever they hold. */
  lemma FieldsRoundTripIff(provider: string, client: Values, model: string, args: Values, nickname: string)
    requires model != "" && '?' !in model && NoEmptyList(args)
    ensures RoundTrips(Spec(provider, client, model + ArgSuffix(args), nickname)) <==>
              CleanProvider(provider) && NoEmptyList(client) && Trimmed(nickname)
              && Scan(model, false) == NoNickname && EndsClean(model, args)
  {
    RoundTripIff(Spec(provider, client, model + ArgSuffix(args), nickname));
    PrintableIff(model, args);
  }

  predicate Ascii(s: string) {
    forall c :: c in s ==> IsAscii(c)
  }

  predicate AsciiArgs(v: Values) {
    forall k :: k in v ==> Ascii(k) && forall i :: 0 <= i < |v[k]| ==> Ascii(v[k][i])
  }

  lemma {:induction false} EscapeAscii(s: string)
    requires Ascii(s)
    ensures Ascii(Escape(s))
  {
    if s != "" {
      EscapeAscii(s[1..]);
      assert s[0] in s && forall c :: c in s[1..] ==> c in s;
      if MustEscape(s[0]) { HexRoundTrip(s[0]); }
    }
  }

  lemma AsciiPlainEndsClean(s: string)
    requires Encodable(s) && Ascii(s)
    ensures TrailingSpace(s) == 0
  {
    assert forall i :: 0 <= i < |s| ==> s[i] in s;
  }

  lemma AsciiValueEndsClean(args: Values)
    requires NoEmptyList(args) && args != map[] && AsciiArgs(args)
    ensures TrailingSpace(Encode(args)) == 0
  {
    var front, k, val := LastPairOf(args);
    LastValue(front, k, val);
    var l := args[k];
    assert l[|l| - 1] == val;
    EscapeAscii(val);
    EscapePlain(val);
    AsciiPlainEndsClean(Escape(val));
    var before := BeforeLastValue(front, k);
    TrailingSpaceSuffix(before, '=', Escape(val));
    Associative(before, "=", Escape(val));
  }

  /** In plain terms: a clean provider, a trimmed nickname, a model without the language's
      delimiters that does not end in whitespace, and any ASCII arguments come back. */
  lemma AsciiFieldsRoundTrip(provider: string, client: Values, model: string, args: Values, nickname: string)
    requires CleanProvider(provider) && NoEmptyList(client) && Trimmed(nickname)
    requires model != "" && '?' !in model && Neutral(model) && TrailingSpace(model) == 0
    requires NoEmptyList(args) && AsciiArgs(args)
    ensures var sp := Spec(provider, client, model + ArgSuffix(args), nickname);
      ParseSpec(Render(sp)) == Ok(sp) && ModelOf(sp.tail) == Ok((model, args))
  {
    var sp := Spec(provider, client, model + ArgSuffix(args), nickname);
    ScanNeutral(model, false, "");
    assert model + "" == model;
    if args != map[] { AsciiValueEndsClean(args); }
    PrintableIff(model, args);
    ModelOfPrinted(model, args);
    ParsePrinted(provider, client, sp.tail + NicknameSuffix(nickname));
    CleanTailReadBack(sp.tail, nickname);
  }

  /** On well-formed specs the canonical form is a faithful key. */
  lemma RenderInjective(a: Spec, b: Spec)
    requires WellFormed(a) && WellFormed(b)
    requires Render(a) == Render(b)
    ensures SameMeaning(a, b)
  {
    WellFormedRoundTrips(a);
    WellFormedRoundTrips(b);
  }

  /** Reading any text and printing it: parsing that again gives the same spec, and hence
      prints the same text, exactly when the canonical tail is printable. */
  lemma ParseThenPrintFixpointIff(text: string)
    requires ParseSpec(text).Ok?
    ensures var sp := ParseSpec(text).value;
            RoundTrips(sp) <==> PrintableTail(sp.tail)
    ensures var sp := ParseSpec(text).value;
            PrintableTail(sp.tail) ==> Render(ParseSpec(Render(sp)).value) == Render(sp)
  {
    var sp := ParseSpec(text).value;
    ParsedIsClean(text);
    RoundTripIff(sp);
  }

  // -------------------------------------------------- texts the law leaves out

  /** Parsing "p:" followed by a clean text. */
  lemma ParseSimple(t: string)
    requires t != "" && CleanBase(t)
    ensures ParseSpec("p:" + t) == Ok(Spec("p", map[], t, ""))
  {
    ParsePrinted("p", map[], t);
    assert Head("p", map[]) == "p:";
  }

  lemma NotPrintableBreaks(sp: Spec)
    requires TrailingSpace(CanonicalTail(sp.tail)) != 0 || Scan(CanonicalTail(sp.tail), false) != NoNickname
    ensures !RoundTrips(sp)
  {
    RoundTripIff(sp);
  }

  /** A model ending in whitespace before an empty '?', as in "p:m ?": the parser accepts
      it, but the '?' is dropped on printing and the blank on parsing again. */
  lemma TrailingBlankBreaks(model: string)
    requires Neutral(model) && '?' !in model && TrailingSpace(model) != 0
    ensures ParseSpec("p:" + (model + "?" + "")) == Ok(Spec("p", map[], model + "?" + "", ""))
    ensures !RoundTrips(Spec("p", map[], model + "?" + "", ""))
  {
    var t := model + "?" + "";
    ScanNeutral(t, false, "");
    assert t + "" == t;
    TrailingSpaceSuffix(model, '?', "");
    assert t == model + ['?'] + "";
    ParseSimple(t);
    ParseBlank();
    ModelOfCut(model, "");
    assert CanonicalTail(t) == model + ArgSuffix(map[]) == model;
    NotPrintableBreaks(Spec("p", map[], t, ""));
  }

  /** A '?' inside the block of a forwarded spec, as in "p:openai{url=a?b}:m": the tail is
      cut inside the block, so what is printed has a brace that is never closed. */
  lemma QuestionInsideBlockBreaks(a: string, b: string)
    requires '?' !in a && Scan(a, false) == Malformed
    requires CleanBase(a + "?" + b) && ParseArgs(b).Ok?
    ensures ParseSpec("p:" + (a + "?" + b)) == Ok(Spec("p", map[], a + "?" + b, ""))
    ensures ParseSpec(Render(Spec("p", map[], a + "?" + b, ""))) == Err
  {
    var t := a + "?" + b;
    ParseSimple(t);
    UnclosedTail(a, b);
    SimpleMalformed(t);
  }

  lemma SimpleMalformed(t: string)
    requires Scan(CanonicalTail(t), false) == Malformed
    ensures ParseSpec(Render(Spec("p", map[], t, ""))) == Err
  {
    MalformedTailPrinted(Spec("p", map[], t, ""));
  }

  lemma UnclosedTail(a: string, b: string)
    requires '?' !in a && Scan(a, false) == Malformed && ParseArgs(b).Ok?
    ensures Scan(CanonicalTail(a + "?" + b), false) == Malformed
  {
    ModelOfCut(a, b);
    ParseArgsNoEmptyList(b);
    ArgSuffixNeutral(ParseArgs(b).value);
    ScanAppend(a, false, ArgSuffix(ParseArgs(b).value));
  }

  lemma ArgSuffixNeutral(args: Values)
    requires NoEmptyList(args)
    ensures Neutral(ArgSuffix(args))
  {
    if args != map[] {
      BlockFacts(args);
      assert ArgSuffix(args) == "?" + Encode(args);
    }
  }

  lemma MalformedTailPrinted(sp: Spec)
    requires CleanProvider(sp.provider) && NoEmptyList(sp.client) && Trimmed(sp.nickname)
    requires Scan(CanonicalTail(sp.tail), false) == Malformed
    ensures ParseSpec(Render(sp)) == Err
  {
    ParsePrinted(sp.provider, sp.client, CanonicalTail(sp.tail) + NicknameSuffix(sp.nickname));
    PrintedBody(CanonicalTail(sp.tail), sp.nickname);
  }
}
