/** The LLM spec language: `provider block? ':' tail ('#' nickname)?`, its parser and
    its canonical printer. */
module SpecLang {
  import opened Text
  import opened Args

  /** A parsed spec.  `tail` is everything after the ':', verbatim. */
  datatype Spec = Spec(provider: string, client: Values, tail: string, nickname: string)

  // ------------------------------------------------------------------ parsing

  datatype Scanned = Malformed | NoNickname | NicknameAt(pos: nat)

  function Shift(n: nat, r: Scanned): Scanned {
    if r.NicknameAt? then NicknameAt(n + r.pos) else r
  }

  /** One pass over the text: where the nickname starts, or that braces are misused. */
  function Scan(s: string, inBlock: bool): (r: Scanned)
    ensures r.NicknameAt? ==> r.pos < |s| && s[r.pos] == '#'
  {
    if s == "" then (if inBlock then Malformed else NoNickname)
    else if s[0] == '{' then (if inBlock then Malformed else Shift(1, Scan(s[1..], true)))
    else if s[0] == '}' then (if inBlock then Shift(1, Scan(s[1..], false)) else Malformed)
    else if s[0] == '#' then (if inBlock then Malformed else NicknameAt(0))
    else Shift(1, Scan(s[1..], inBlock))
  }

  /** `splitNickname`: what is before the nickname and the nickname, both trimmed. */
  function SplitNickname(s: string): Result<(string, string)> {
    match Scan(s, false)
    case Malformed => Err
    case NoNickname => Ok((TrimSpace(s), ""))
    case NicknameAt(i) => Ok((TrimSpace(s[..i]), TrimSpace(s[i + 1..])))
  }

  /** `splitHead`: provider, block and tail. */
  function SplitHead(base: string): Result<(string, string, string)> {
    var open, colon, end := IndexOf(base, '{'), IndexOf(base, ':'), IndexOf(base, '}');
    if open < 0 && colon < 0 then Err
    else if open < 0 || 0 <= colon < open then Ok((TrimSpace(base[..colon]), "", base[colon + 1..]))
    else if end < open then Err
    else
      var rest := base[end + 1..];
      if rest == "" || rest[0] != ':' then Err
      else Ok((TrimSpace(base[..open]), base[open + 1..end], rest[1..]))
  }

  function ParseSpec(spec: string): Result<Spec> {
    var s := TrimSpace(spec);
    if s == "" then Err
    else
      match SplitNickname(s)
      case Err => Err
      case Ok((base, nickname)) =>
        match SplitHead(base)
        case Err => Err
        case Ok((provider, block, tail)) =>
          if provider == "" || tail == "" then Err
          else
            match ParseArgs(block)
            case Err => Err
            case Ok(client) => Ok(Spec(provider, client, tail, nickname))
  }

  /** `Spec.Model`: the tail cut at its first '?'. */
  function ModelOf(tail: string): Result<(string, Values)> {
    var (model, rawArgs) := Cut(tail, '?');
    if model == "" then Err
    else
      match ParseArgs(rawArgs)
      case Err => Err
      case Ok(args) => Ok((model, args))
  }

  // ----------------------------------------------------------------- printing

  ghost function Block(client: Values): string {
    if client == map[] then "" else "{" + Encode(client) + "}"
  }

  /** `argSuffix`. */
  ghost function ArgSuffix(args: Values): string {
    if args == map[] then "" else "?" + Encode(args)
  }

  ghost function CanonicalTail(tail: string): string {
    match ModelOf(tail)
    case Ok((model, args)) => model + ArgSuffix(args)
    case Err => tail
  }

  function NicknameSuffix(nickname: string): string {
    if nickname == "" then "" else "#" + nickname
  }

  /** `Spec.String`: the canonical form. */
  ghost function Render(sp: Spec): string {
    Head(sp.provider, sp.client) + (CanonicalTail(sp.tail) + NicknameSuffix(sp.nickname))
  }

  // ------------------------------------------------- what scanning looks at

  /** Text the scanner passes over without a change of state. */
  predicate Neutral(s: string) {
    '{' !in s && '}' !in s && '#' !in s
  }

  lemma {:induction false} ScanNeutral(a: string, inBlock: bool, z: string)
    requires Neutral(a)
    ensures Scan(a + z, inBlock) == Shift(|a|, Scan(z, inBlock))
  {
    if a == "" {
      assert a + z == z;
    } else {
      ScanNeutral(a[1..], inBlock, z);
      assert (a + z)[1..] == a[1..] + z;
    }
  }

  lemma ScanBlock(e: string, z: string)
    requires Neutral(e)
    ensures Scan("{" + e + "}" + z, false) == Shift(|e| + 2, Scan(z, false))
  {
    ScanNeutral(e, true, "}" + z);
    assert ("{" + e + "}" + z)[1..] == e + ("}" + z);
    assert ("}" + z)[1..] == z;
  }

  lemma {:induction false} ScanAppend(a: string, inBlock: bool, w: string)
    requires Neutral(w)
    ensures Scan(a + w, inBlock) == Scan(a, inBlock)
  {
    if a == "" {
      assert a + w == w == w + "";
      ScanNeutral(w, inBlock, "");
    } else {
      assert (a + w)[1..] == a[1..] + w;
      if a[0] == '{' { ScanAppend(a[1..], true, w); }
      else if a[0] == '}' { ScanAppend(a[1..], false, w); }
      else { ScanAppend(a[1..], inBlock, w); }
    }
  }

  /** After well-formed text a '#' starts the nickname. */
  lemma {:induction false} ScanHash(a: string, inBlock: bool, z: string)
    requires Scan(a, inBlock) == NoNickname
    ensures Scan(a + "#" + z, inBlock) == NicknameAt(|a|)
  {
    if a == "" {
      assert a + "#" + z == "#" + z;
    } else {
      assert (a + "#" + z)[1..] == a[1..] + "#" + z;
      ScanHash(a[1..], if a[0] == '{' then true else if a[0] == '}' then false else inBlock, z);
    }
  }

  /** Whatever stands before the nickname is well-formed by itself. */
  lemma {:induction false} ScanBeforeNickname(s: string, inBlock: bool)
    requires Scan(s, inBlock).NicknameAt?
    ensures Scan(s[..Scan(s, inBlock).pos], inBlock) == NoNickname
  {
    if s[0] != '#' {
      var next := if s[0] == '{' then true else if s[0] == '}' then false else inBlock;
      ScanBeforeNickname(s[1..], next);
      var i := Scan(s, inBlock).pos;
      assert s[..i][1..] == s[1..][..i - 1];
    }
  }

  /** Appending after a nickname start or a misused brace changes neither. */
  lemma {:induction false} ScanSettled(a: string, inBlock: bool, z: string)
    requires Scan(a, inBlock).NicknameAt?
    ensures Scan(a + z, inBlock) == Scan(a, inBlock)
  {
    if a[0] != '#' {
      assert (a + z)[1..] == a[1..] + z;
      ScanSettled(a[1..], if a[0] == '{' then true else if a[0] == '}' then false else inBlock, z);
    }
  }

  lemma TrimRightNeutral(s: string)
    ensures Scan(TrimRight(s), false) == Scan(s, false)
  {
    var r := TrimRight(s);
    var w := s[|r|..];
    TrimRightTakesSpace(s);
    assert Neutral(w) by {
      forall c | c in w ensures c !in {'{', '}', '#'} {
        var i :| 0 <= i < |w| && w[i] == c;
        assert s[|r| + i] == c;
      }
    }
    ScanAppend(r, false, w);
    assert s == r + w;
  }

  // ---------------------------------------------------- parsing a printed head

  /** A provider token the parser can give back. */
  predicate CleanProvider(p: string) {
    p != "" && Trimmed(p) && Neutral(p) && ':' !in p
  }

  lemma BlockFacts(client: Values)
    requires NoEmptyList(client)
    ensures Neutral(Encode(client))
    ensures ParseArgs(Encode(client)) == Ok(client)
  {
    DecodeEncode(client);
  }

  lemma ParseBlank()
    ensures ParseArgs("") == Ok(map[])
  {
    assert TrimSpace("") == "";
  }

  /** The printed provider, block and ':'. */
  ghost function Head(p: string, client: Values): string {
    p + Block(client) + ":"
  }

  /** Splitting a printed head finds the provider, the encoded block and the tail again. */
  lemma SplitPrintedHead(p: string, client: Values, t: string)
    requires CleanProvider(p) && NoEmptyList(client)
    ensures SplitHead(Head(p, client) + t) ==
            Ok((p, if client == map[] then "" else Encode(client), t))
  {
    if client == map[] {
      PlainHeadText(p, t);
      SplitPlainHead(p, t);
    } else {
      BlockFacts(client);
      SplitBlockHead(p, Encode(client), t);
    }
  }

  lemma SplitPlainHead(p: string, t: string)
    requires CleanProvider(p)
    ensures SplitHead(p + [':'] + t) == Ok((p, "", t))
  {
    TrimKeepsTrimmed(p);
    var base := p + [':'] + t;
    assert base[..|p|] == p && base[|p| + 1..] == t;
    SplitPlainAt(base, |p|);
  }

  lemma SplitBlockHead(p: string, e: string, t: string)
    requires CleanProvider(p) && Neutral(e)
    ensures SplitHead(p + ("{" + e + "}") + ":" + t) == Ok((p, e, t))
  {
    TrimKeepsTrimmed(p);
    BlockHeadSlices(p, e, t);
    SplitBlockAt(p + ("{" + e + "}") + ":" + t, |p|, |p| + 1 + |e|);
  }

  lemma BlockHeadSlices(p: string, e: string, t: string)
    ensures var base := p + ("{" + e + "}") + ":" + t;
            var m := |p| + 1 + |e|;
            && m + 1 < |base| && base[|p|] == '{' && base[m] == '}' && base[m + 1] == ':'
            && base[..|p|] == p && base[|p| + 1..m] == e && base[m + 2..] == t
  {
  }

  lemma SplitPlainAt(base: string, n: nat)
    requires n < |base| && base[n] == ':' && Neutral(base[..n]) && ':' !in base[..n]
    ensures SplitHead(base) == Ok((TrimSpace(base[..n]), "", base[n + 1..]))
  {
    IndexOfIs(base, ':', n);
    AbsentBefore(base, '{', n);
  }

  lemma SplitBlockAt(base: string, n: nat, m: nat)
    requires n < m && m + 1 < |base| && base[n] == '{' && base[m] == '}' && base[m + 1] == ':'
    requires Neutral(base[..n]) && ':' !in base[..n] && Neutral(base[n + 1..m])
    ensures SplitHead(base) == Ok((TrimSpace(base[..n]), base[n + 1..m], base[m + 2..]))
  {
    IndexOfIs(base, '{', n);
    assert '}' !in base[..m] by {
      assert base[..m] == base[..n] + [base[n]] + base[n + 1..m];
    }
    IndexOfIs(base, '}', m);
    AbsentBefore(base, ':', n);
    assert base[m + 1..][1..] == base[m + 2..];
  }

  lemma ScanPrintedHead(p: string, client: Values, y: string)
    requires CleanProvider(p) && NoEmptyList(client)
    ensures Scan(Head(p, client) + y, false) == Shift(|Head(p, client)|, Scan(y, false))
  {
    if client == map[] {
      assert Neutral(p + ":");
      ScanNeutral(p + ":", false, y);
      assert Head(p, client) == p + ":";
    } else {
      BlockFacts(client);
      ScanBlockHead(p, Encode(client), y);
      BlockHeadText(p, client, y);
    }
  }

  lemma BlockHeadText(p: string, client: Values, y: string)
    requires client != map[]
    ensures Head(p, client) + y == p + ("{" + Encode(client) + "}" + (":" + y))
    ensures |Head(p, client)| == |p| + |Encode(client)| + 3
  {
    Associative(p + Block(client), ":", y);
    Associative(p, Block(client), ":" + y);
  }

  lemma ScanBlockHead(p: string, e: string, y: string)
    requires Neutral(p) && Neutral(e)
    ensures Scan(p + ("{" + e + "}" + (":" + y)), false) == Shift(|p| + |e| + 3, Scan(y, false))
  {
    ScanNeutral(":", false, y);
    ScanBlock(e, ":" + y);
    ScanNeutral(p, false, "{" + e + "}" + (":" + y));
  }

  lemma PlainHeadText(p: string, x: string)
    ensures Head(p, map[]) + x == p + [':'] + x
  {
  }

  lemma BlockConcat(p: string, e: string, x: string)
    ensures p + ("{" + e + "}") + ":" + x == p + ['{'] + (e + "}" + ":" + x)
  {
  }

  lemma HeadLeadingSpace(p: string, client: Values, x: string)
    requires CleanProvider(p)
    ensures LeadingSpace(Head(p, client) + x) == 0
  {
    if client == map[] {
      LeadingSpacePrefix(p, ':', x);
      PlainHeadText(p, x);
    } else {
      LeadingSpacePrefix(p, '{', Encode(client) + "}" + ":" + x);
      BlockConcat(p, Encode(client), x);
    }
  }

  lemma TrimPrintedHead(p: string, client: Values, x: string)
    requires CleanProvider(p)
    ensures TrimSpace(Head(p, client) + x) == Head(p, client) + TrimRight(x)
  {
    HeadLeadingSpace(p, client, x);
    var h := p + Block(client);
    TrimRightSuffix(h, ':', x);
    assert Head(p, client) == h + [':'];
  }

  /** Tail and nickname of what follows a printed head. */
  function Body(y: string): Result<(string, string)> {
    match Scan(y, false)
    case Malformed => Err
    case NoNickname => Ok((y, ""))
    case NicknameAt(i) => Ok((TrimRight(y[..i]), TrimSpace(y[i + 1..])))
  }

  /** Parsing a printed head followed by any text at all. */
  lemma ParsePrinted(p: string, client: Values, x: string)
    requires CleanProvider(p) && NoEmptyList(client)
    ensures ParseSpec(Head(p, client) + x) ==
            match Body(TrimRight(x)) {
              case Err => Err
              case Ok((t, n)) => if t == "" then Err else Ok(Spec(p, client, t, n))
            }
  {
    var h, y := Head(p, client), TrimRight(x);
    TrimPrintedHead(p, client, x);
    SplitPrintedNickname(p, client, y);
    if Body(y).Ok? {
      var (t, n) := Body(y).value;
      SplitPrintedHead(p, client, t);
      if client == map[] { ParseBlank(); } else { BlockFacts(client); }
    }
  }

  lemma SplitBare(s: string)
    requires Scan(s, false) == NoNickname && TrimSpace(s) == s
    ensures SplitNickname(s) == Ok((s, ""))
  {
  }

  lemma SplitAt(s: string, n: nat, base: string, rest: string)
    requires n < |s| && Scan(s, false) == NicknameAt(n) && s[..n] == base && s[n + 1..] == rest
    ensures SplitNickname(s) == Ok((TrimSpace(base), TrimSpace(rest)))
  {
  }

  lemma SplitNicknamed(h: string, y: string, i: nat)
    requires i < |y| && Scan(h + y, false) == NicknameAt(|h| + i)
    requires TrimSpace(h + y[..i]) == h + TrimRight(y[..i])
    ensures SplitNickname(h + y) == Ok((h + TrimRight(y[..i]), TrimSpace(y[i + 1..])))
  {
    SlicesAfter(h, y, i);
    SplitAt(h + y, |h| + i, h + y[..i], y[i + 1..]);
  }

  lemma SplitPrintedNickname(p: string, client: Values, y: string)
    requires CleanProvider(p) && NoEmptyList(client) && TrailingSpace(y) == 0
    ensures SplitNickname(Head(p, client) + y) ==
            match Body(y) {
              case Err => Err
              case Ok((t, n)) => Ok((Head(p, client) + t, n))
            }
  {
    var h := Head(p, client);
    ScanPrintedHead(p, client, y);
    match Scan(y, false)
    case Malformed =>
    case NoNickname =>
      TrimPrintedHead(p, client, y);
      SplitBare(h + y);
    case NicknameAt(i) =>
      TrimPrintedHead(p, client, y[..i]);
      SplitNicknamed(h, y, i);
  }

  lemma SlicesAfter(h: string, y: string, i: nat)
    requires i < |y|
    ensures (h + y)[..|h| + i] == h + y[..i] && (h + y)[|h| + i + 1..] == y[i + 1..]
  {
  }

  // ------------------------------------------------- what the parser gives out

  lemma {:induction false} TrimSubset(s: string)
    ensures forall c :: c in TrimSpace(s) ==> c in s
  {
    TrimLeftSubset(s);
    assert forall c :: c in TrimSpace(s) ==> c in TrimLeft(s);
  }

  lemma {:induction false} TrimLeftSubset(s: string)
    ensures forall c :: c in TrimLeft(s) ==> c in s
  {
    var n := LeadingSpace(s);
    if n != 0 { TrimLeftSubset(s[n..]); }
  }

  /** A '}' before any '{', or a '{' or '#' inside a block, is never accepted. */
  lemma {:induction false} ScanAccepts(s: string)
    requires Scan(s, false) == NoNickname
    ensures '#' !in s
    ensures '{' !in s ==> '}' !in s
  {
    ScanAcceptsFrom(s, false);
  }

  lemma {:induction false} ScanAcceptsFrom(s: string, inBlock: bool)
    requires Scan(s, inBlock) == NoNickname
    ensures '#' !in s
    ensures !inBlock && '{' !in s ==> '}' !in s
    ensures inBlock ==> '}' in s && Neutral(s[..IndexOf(s, '}')]) && Scan(s[IndexOf(s, '}') + 1..], false) == NoNickname
  {
    if s != "" {
      var next := if s[0] == '{' then true else if s[0] == '}' then false else inBlock;
      ScanAcceptsFrom(s[1..], next);
      assert s == [s[0]] + s[1..];
      if inBlock && s[0] != '}' {
        var i := IndexOf(s[1..], '}');
        assert IndexOf(s, '}') == i + 1;
        assert s[..i + 1] == [s[0]] + s[1..][..i];
        assert s[i + 2..] == s[1..][i + 1..];
      }
    }
  }

  /** A prefix without an opening brace has no closing one either. */
  lemma {:induction false} ScanPrefixNeutral(a: string, z: string)
    requires Scan(a + z, false) == NoNickname
    requires '{' !in a
    ensures Neutral(a)
    ensures Scan(z, false) == NoNickname
  {
    if a == "" {
      assert a + z == z;
    } else {
      assert (a + z)[1..] == a[1..] + z;
      assert a == [a[0]] + a[1..];
      ScanPrefixNeutral(a[1..], z);
    }
  }

  /** What `SplitHead` can rely on and what it keeps. */
  predicate CleanBase(base: string) {
    Scan(base, false) == NoNickname && TrailingSpace(base) == 0
  }

  lemma PlainHeadClean(base: string, n: nat)
    requires CleanBase(base) && n < |base| && base[n] == ':'
    requires ':' !in base[..n] && '{' !in base[..n]
    ensures Neutral(base[..n]) && CleanBase(base[n + 1..])
  {
    var a, tail := base[..n], base[n + 1..];
    assert base == a + [':'] + tail;
    ScanPrefixNeutral(a + [':'], tail);
    assert forall c :: c in a ==> c in a + [':'];
    TrailingAfterColon(base, n);
  }

  lemma BlockHeadClean(base: string, n: nat, m: nat)
    requires CleanBase(base) && n < |base| && base[n] == '{' && '{' !in base[..n]
    requires m < |base| && base[m] == '}' && '}' !in base[..m] && n <= m
    requires m + 1 < |base| && base[m + 1] == ':'
    ensures Neutral(base[..n]) && CleanBase(base[m + 2..])
  {
    assert base == base[..n] + base[n..];
    ScanPrefixNeutral(base[..n], base[n..]);
    assert base[n..][1..] == base[n + 1..];
    ScanAfterBlock(base, n, m);
    ScanAfterColon(base[m + 1..], base[m + 2..]);
    TrailingAfterColon(base, m + 1);
  }

  lemma ScanAfterBlock(base: string, n: nat, m: nat)
    requires n <= m < |base| && base[n] == '{' && base[m] == '}' && '}' !in base[..m]
    requires Scan(base[n + 1..], true) == NoNickname
    ensures Scan(base[m + 1..], false) == NoNickname
  {
    ScanAcceptsFrom(base[n + 1..], true);
    BlockEnd(base, n, m);
    assert base[n + 1..][m - n..] == base[m + 1..];
  }

  lemma ScanAfterColon(rest: string, tail: string)
    requires rest != "" && rest[0] == ':' && rest[1..] == tail
    requires Scan(rest, false) == NoNickname
    ensures Scan(tail, false) == NoNickname
  {
  }

  lemma TrailingAfterColon(base: string, k: nat)
    requires k < |base| && base[k] == ':'
    ensures TrailingSpace(base[k + 1..]) == TrailingSpace(base)
  {
    TrailingSpaceSuffix(base[..k], ':', base[k + 1..]);
    assert base == base[..k] + [':'] + base[k + 1..];
  }

  lemma BlockEnd(base: string, n: nat, m: nat)
    requires n <= m < |base| && base[n] == '{' && base[m] == '}' && '}' !in base[..m]
    ensures IndexOf(base[n + 1..], '}') == m - n - 1
  {
    AbsentBefore(base, '}', m);
    assert base[n + 1..][m - n - 1] == '}';
    IndexOfIs(base[n + 1..], '}', m - n - 1);
  }

  lemma SplitHeadClean(base: string)
    requires CleanBase(base)
    requires SplitHead(base).Ok?
    ensures var (provider, block, tail) := SplitHead(base).value;
            Trimmed(provider) && Neutral(provider) && ':' !in provider && CleanBase(tail)
  {
    var open, colon, end := IndexOf(base, '{'), IndexOf(base, ':'), IndexOf(base, '}');
    if open < 0 || 0 <= colon < open {
      NotInPrefix(base, '{', colon);
      PlainHeadClean(base, colon);
      CleanTrim(base[..colon]);
    } else {
      NotInPrefix(base, ':', open);
      assert base[end + 1..][0] == base[end + 1];
      BlockSplitClean(base, open, end);
    }
  }

  lemma BlockSplitClean(base: string, n: nat, m: nat)
    requires CleanBase(base) && n < |base| && base[n] == '{' && '{' !in base[..n] && ':' !in base[..n]
    requires m + 1 < |base| && base[m] == '}' && '}' !in base[..m] && n <= m && base[m + 1] == ':'
    ensures var provider := TrimSpace(base[..n]);
            Trimmed(provider) && Neutral(provider) && ':' !in provider && CleanBase(base[m + 1..][1..])
  {
    BlockHeadClean(base, n, m);
    CleanTrim(base[..n]);
    assert base[m + 1..][1..] == base[m + 2..];
  }

  lemma CleanTrim(a: string)
    requires Neutral(a) && ':' !in a
    ensures Trimmed(TrimSpace(a)) && Neutral(TrimSpace(a)) && ':' !in TrimSpace(a)
  {
    TrimSpaceTrims(a);
    TrimSubset(a);
  }

  lemma SplitNicknameClean(s: string)
    requires LeadingSpace(s) == 0
    requires SplitNickname(s).Ok?
    ensures var (base, nickname) := SplitNickname(s).value;
            CleanBase(base) && Trimmed(nickname)
  {
    match Scan(s, false)
    case NoNickname =>
      TrimRightNeutral(s);
      assert TrimLeft(s) == s;
    case NicknameAt(i) =>
      ScanBeforeNickname(s, false);
      assert LeadingSpace(s[..i]) == 0;
      assert TrimLeft(s[..i]) == s[..i];
      TrimRightNeutral(s[..i]);
      TrimSpaceTrims(s[i + 1..]);
  }

  /** Everything the parser returns is clean: whatever text it was given. */
  lemma ParsedIsClean(spec: string)
    requires ParseSpec(spec).Ok?
    ensures var sp := ParseSpec(spec).value;
            && CleanProvider(sp.provider) && NoEmptyList(sp.client) && Trimmed(sp.nickname)
            && sp.tail != "" && CleanBase(sp.tail)
  {
    var s := TrimSpace(spec);
    TrimSpaceTrims(spec);
    SplitNicknameClean(s);
    var (base, nickname) := SplitNickname(s).value;
    SplitHeadClean(base);
    var (provider, block, tail) := SplitHead(base).value;
    ParseArgsNoEmptyList(block);
  }

  lemma ParseArgsNoEmptyList(raw: string)
    requires ParseArgs(raw).Ok?
    ensures NoEmptyList(ParseArgs(raw).value)
  {
    if TrimSpace(raw) != "" {
      CollectNoEmptyList(ParsePairs(raw).value);
    }
  }

  // ------------------------------------------------------------------- loops

  /** `splitNickname` as the source runs it: one pass with a brace depth. */
  method FindNickname(s: string) returns (r: Result<(string, string)>)
    ensures r == SplitNickname(s)
  {
    var depth := 0;
    for i := 0 to |s|
      invariant 0 <= depth <= 1
      invariant Scan(s, false) == Shift(i, Scan(s[i..], depth > 0))
    {
      assert s[i..][1..] == s[i + 1..];
      if s[i] == '{' {
        if depth > 0 { return Err; }
        depth := depth + 1;
      } else if s[i] == '}' {
        if depth == 0 { return Err; }
        depth := depth - 1;
      } else if s[i] == '#' {
        if depth > 0 { return Err; }
        return Ok((TrimSpace(s[..i]), TrimSpace(s[i + 1..])));
      }
    }
    if depth > 0 { return Err; }
    return Ok((TrimSpace(s), ""));
  }

  /** `argSuffix`, with the encoder's loops. */
  method PrintArgSuffix(args: Values) returns (s: string)
    ensures s == ArgSuffix(args)
  {
    if args == map[] { return ""; }
    var e := EncodeArgs(args);
    return "?" + e;
  }

  /** `Spec.String` as the source builds it, piece by piece. */
  method Print(sp: Spec) returns (b: string)
    ensures b == Render(sp)
  {
    b := sp.provider;
    if sp.client != map[] {
      var e := EncodeArgs(sp.client);
      b := b + ("{" + e + "}");
    }
    assert b == sp.provider + Block(sp.client);
    b := b + ":";
    var tail := sp.tail;
    match ModelOf(sp.tail) {
      case Err =>
      case Ok((model, args)) =>
        var suffix := PrintArgSuffix(args);
        tail := model + suffix;
    }
    b := b + (tail + NicknameSuffix(sp.nickname));
  }
}
