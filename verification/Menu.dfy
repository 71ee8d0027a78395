/** Menu resolution: a caller's handle is turned into a spec the server will run.  The
    handle names which model; the menu supplies how to reach it. */
module Menu {
  import opened Text
  import opened Args
  import opened SpecLang
  import opened SpecRoundTrip

  /** A menu row: the operator's text and what it parses to. */
  datatype Entry = Entry(text: string, sp: Spec)

  /** `Menu.parse`: rows that do not parse are dropped. */
  function ParseRows(specs: seq<string>): seq<Entry> {
    if specs == [] then []
    else
      match ParseSpec(specs[0])
      case Ok(sp) => [Entry(specs[0], sp)] + ParseRows(specs[1..])
      case Err => ParseRows(specs[1..])
  }

  function Filter(p: Entry -> bool, s: seq<Entry>): seq<Entry> {
    if s == [] then []
    else (if p(s[0]) then [s[0]] else []) + Filter(p, s[1..])
  }

  // --------------------------------------------------------- matching by spec

  /** The row's model and arguments are those asked for by provider and model. */
  predicate SameModel(e: Entry, provider: string, model: string) {
    ModelOf(e.sp.tail).Ok? && e.sp.provider == provider && ModelOf(e.sp.tail).value.0 == model
  }

  ghost predicate SameArgs(e: Entry, args: Values) {
    ModelOf(e.sp.tail).Ok? && Encode(ModelOf(e.sp.tail).value.1) == Encode(args)
  }

  ghost function HasModel(provider: string, model: string): Entry -> bool {
    (e: Entry) => SameModel(e, provider, model)
  }

  ghost function HasArgs(args: Values): Entry -> bool {
    (e: Entry) => SameArgs(e, args)
  }

  ghost function ByModel(entries: seq<Entry>, provider: string, model: string): seq<Entry> {
    Filter(HasModel(provider, model), entries)
  }

  ghost function Exact(entries: seq<Entry>, provider: string, model: string, args: Values): seq<Entry> {
    Filter(HasArgs(args), ByModel(entries, provider, model))
  }

  /** The rows that fit; those whose arguments the caller reproduced win over the rest. */
  ghost function Candidates(entries: seq<Entry>, provider: string, model: string, args: Values): seq<Entry> {
    if Exact(entries, provider, model, args) != [] then Exact(entries, provider, model, args)
    else ByModel(entries, provider, model)
  }

  /** A row's canonical text without its nickname, with `args` in place of its own. */
  ghost function RunText(e: Entry, model: string, args: Values): string {
    Render(Spec(e.sp.provider, e.sp.client, model + ArgSuffix(args), ""))
  }

  ghost function OwnText(e: Entry): string {
    match ModelOf(e.sp.tail)
    case Ok((model, args)) => RunText(e, model, args)
    case Err => ""
  }

  ghost function OwnTexts(entries: seq<Entry>): set<string> {
    set e | e in entries :: OwnText(e)
  }

  /** `resolveSpec`. */
  ghost function ResolveSpec(entries: seq<Entry>, req: Spec): Result<string> {
    if req.client != map[] then Err
    else
      match ModelOf(req.tail)
      case Err => Err
      case Ok((model, args)) =>
        var c := Candidates(entries, req.provider, model, args);
        if c == [] || |OwnTexts(c)| != 1 || ModelOf(c[0].sp.tail).Err? then Err
        else Ok(RunText(c[0], model, ModelOf(c[0].sp.tail).value.1 + args))
  }

  // --------------------------------------------------------- matching by name

  function Nickname(): Entry -> string {
    (e: Entry) => e.sp.nickname
  }

  /** The label the picker shows, for any labelling of spec texts. */
  function Label(shown: string -> string): Entry -> string {
    (e: Entry) => shown(e.text)
  }

  function IsNamed(name: Entry -> string, handle: string): Entry -> bool {
    (e: Entry) => name(e) == handle
  }

  /** `matchAlias`: nicknames first, then the labels the picker shows; an ambiguous name
      in either pass is refused. */
  function MatchAlias(entries: seq<Entry>, shown: string -> string, handle: string): Option<Entry> {
    var byNickname := Filter(IsNamed(Nickname(), handle), entries);
    var byLabel := Filter(IsNamed(Label(shown), handle), entries);
    if |byNickname| > 1 then None
    else if |byNickname| == 1 then Some(byNickname[0])
    else if |byLabel| == 1 then Some(byLabel[0])
    else None
  }

  ghost function EntryText(e: Entry): string {
    Render(Spec(e.sp.provider, e.sp.client, e.sp.tail, ""))
  }

  /** `Menu.Resolve`, for any labelling of the rows. */
  ghost function Resolve(specs: seq<string>, shown: string -> string, handle: string): Result<string> {
    var h := TrimSpace(handle);
    var entries := ParseRows(specs);
    var alias := MatchAlias(entries, shown, h);
    var bySpec := if ParseSpec(h).Ok? then ResolveSpec(entries, ParseSpec(h).value) else Err;
    if h == "" || entries == [] then Err
    else if bySpec.Ok? then bySpec
    else
      match alias
      case Some(e) => Ok(EntryText(e))
      case None => Err
  }

  // ----------------------------------------------------- permuting the menu

  lemma MultisetCons<T>(s: seq<T>)
    requires s != []
    ensures multiset(s) == multiset([s[0]]) + multiset(s[1..])
  {
    assert s == [s[0]] + s[1..];
  }

  /** How often a row occurs among the parsed ones: as often as its text occurs in the menu. */
  lemma {:induction false} ParseRowsCount(specs: seq<string>, e: Entry)
    ensures multiset(ParseRows(specs))[e] == if ParseSpec(e.text) == Ok(e.sp) then multiset(specs)[e.text] else 0
  {
    if specs != [] {
      ParseRowsCount(specs[1..], e);
      MultisetCons(specs);
      if ParseSpec(specs[0]).Ok? {
        MultisetCons(ParseRows(specs));
      }
    }
  }

  lemma {:induction false} FilterCount(p: Entry -> bool, s: seq<Entry>, e: Entry)
    ensures multiset(Filter(p, s))[e] == if p(e) then multiset(s)[e] else 0
  {
    if s != [] {
      FilterCount(p, s[1..], e);
      MultisetCons(s);
      if p(s[0]) {
        MultisetCons(Filter(p, s));
      } else {
        assert Filter(p, s) == Filter(p, s[1..]);
      }
    }
  }

  lemma FilterMember(p: Entry -> bool, s: seq<Entry>, e: Entry)
    ensures e in Filter(p, s) <==> e in s && p(e)
  {
    FilterCount(p, s, e);
    assert e in s <==> e in multiset(s);
    assert e in Filter(p, s) <==> e in multiset(Filter(p, s));
  }

  lemma ParseRowsPermuted(s: seq<string>, t: seq<string>)
    requires multiset(s) == multiset(t)
    ensures multiset(ParseRows(s)) == multiset(ParseRows(t))
  {
    forall e ensures multiset(ParseRows(s))[e] == multiset(ParseRows(t))[e] {
      ParseRowsCount(s, e);
      ParseRowsCount(t, e);
    }
  }

  lemma FilterPermuted(p: Entry -> bool, s: seq<Entry>, t: seq<Entry>)
    requires multiset(s) == multiset(t)
    ensures multiset(Filter(p, s)) == multiset(Filter(p, t))
  {
    forall e ensures multiset(Filter(p, s))[e] == multiset(Filter(p, t))[e] {
      FilterCount(p, s, e);
      FilterCount(p, t, e);
    }
  }

  lemma SameCount<T>(s: seq<T>, t: seq<T>)
    requires multiset(s) == multiset(t)
    ensures |s| == |t|
    ensures |s| == 1 ==> s == t
    ensures forall x :: x in s <==> x in t
  {
    assert |multiset(s)| == |s| && |multiset(t)| == |t|;
    assert forall x :: x in s <==> x in multiset(s);
    assert forall x :: x in t <==> x in multiset(t);
    if |s| == 1 { assert s[0] in t; }
  }

  lemma MatchAliasPermuted(s: seq<Entry>, t: seq<Entry>, shown: string -> string, handle: string)
    requires multiset(s) == multiset(t)
    ensures MatchAlias(s, shown, handle) == MatchAlias(t, shown, handle)
  {
    var p, q := IsNamed(Nickname(), handle), IsNamed(Label(shown), handle);
    FilterPermuted(p, s, t);
    FilterPermuted(q, s, t);
    SameCount(Filter(p, s), Filter(p, t));
    SameCount(Filter(q, s), Filter(q, t));
  }

  /** What every parsed row satisfies. */
  ghost predicate CleanRow(e: Entry) {
    CleanProvider(e.sp.provider) && NoEmptyList(e.sp.client)
  }

  lemma {:induction false} ParsedRowsClean(specs: seq<string>)
    ensures forall e :: e in ParseRows(specs) ==> CleanRow(e)
  {
    if specs != [] {
      ParsedRowsClean(specs[1..]);
      if ParseSpec(specs[0]).Ok? { ParsedIsClean(specs[0]); }
    }
  }

  lemma RunTextSplits(e: Entry, model: string, args: Values)
    requires CleanRow(e) && model != "" && '?' !in model && NoEmptyList(args)
    ensures SplitHead(RunText(e, model, args)) ==
            Ok((e.sp.provider, if e.sp.client == map[] then "" else Encode(e.sp.client), model + ArgSuffix(args)))
  {
    ModelOfPrinted(model, args);
    var t := model + ArgSuffix(args);
    assert t + NicknameSuffix("") == t;
    SplitPrintedHead(e.sp.provider, e.sp.client, t);
  }

  /** Two rows with the same canonical text have the same client block and arguments. */
  lemma OwnTextInjective(d: Entry, e: Entry, model: string)
    requires CleanRow(d) && CleanRow(e)
    requires ModelOf(d.sp.tail).Ok? && ModelOf(d.sp.tail).value.0 == model
    requires ModelOf(e.sp.tail).Ok? && ModelOf(e.sp.tail).value.0 == model
    requires OwnText(d) == OwnText(e)
    ensures d.sp.client == e.sp.client && ModelOf(d.sp.tail) == ModelOf(e.sp.tail)
  {
    var a, b := ModelOf(d.sp.tail).value.1, ModelOf(e.sp.tail).value.1;
    ModelHasNoQuestion(d.sp.tail);
    ModelHasNoQuestion(e.sp.tail);
    RunTextSplits(d, model, a);
    RunTextSplits(e, model, b);
    BlockReadsBack(d.sp.client);
    BlockReadsBack(e.sp.client);
    ModelOfPrinted(model, a);
    ModelOfPrinted(model, b);
  }

  lemma BlockReadsBack(client: Values)
    requires NoEmptyList(client)
    ensures ParseArgs(if client == map[] then "" else Encode(client)) == Ok(client)
  {
    ParseBlank();
    BlockFacts(client);
  }

  lemma CandidatesPermuted(s: seq<Entry>, t: seq<Entry>, provider: string, model: string, args: Values)
    requires multiset(s) == multiset(t)
    ensures multiset(Candidates(s, provider, model, args)) == multiset(Candidates(t, provider, model, args))
  {
    FilterPermuted(HasModel(provider, model), s, t);
    FilterPermuted(HasArgs(args), ByModel(s, provider, model), ByModel(t, provider, model));
    SameCount(Exact(s, provider, model, args), Exact(t, provider, model, args));
  }

  lemma CandidatesFit(entries: seq<Entry>, provider: string, model: string, args: Values, e: Entry)
    requires e in Candidates(entries, provider, model, args)
    ensures e in entries && SameModel(e, provider, model)
  {
    var byModel := ByModel(entries, provider, model);
    FilterMember(HasArgs(args), byModel, e);
    FilterMember(HasModel(provider, model), entries, e);
  }

  lemma OneText(c: seq<Entry>, d: Entry, e: Entry)
    requires |OwnTexts(c)| == 1 && d in c && e in c
    ensures OwnText(d) == OwnText(e)
  {
    Singleton(OwnTexts(c), OwnText(d), OwnText(e));
  }

  lemma Singleton<T>(s: set<T>, a: T, b: T)
    requires |s| == 1 && a in s && b in s
    ensures a == b
  {
    assert |s - {a}| == 0;
    assert b !in s - {a};
  }

  lemma ResolveSpecPermuted(s: seq<Entry>, t: seq<Entry>, req: Spec)
    requires multiset(s) == multiset(t)
    requires forall e :: e in s ==> CleanRow(e)
    ensures ResolveSpec(s, req) == ResolveSpec(t, req)
  {
    if req.client == map[] && ModelOf(req.tail).Ok? {
      var (model, args) := ModelOf(req.tail).value;
      var c, d := Candidates(s, req.provider, model, args), Candidates(t, req.provider, model, args);
      CandidatesPermuted(s, t, req.provider, model, args);
      SameCount(c, d);
      assert OwnTexts(c) == OwnTexts(d);
      if c != [] && |OwnTexts(c)| == 1 {
        ChosenRowAgrees(s, req.provider, model, args, d[0]);
      }
    }
  }

  /** When all candidates have one text, any of them stands for the first. */
  lemma ChosenRowAgrees(s: seq<Entry>, provider: string, model: string, args: Values, d: Entry)
    requires forall e :: e in s ==> CleanRow(e)
    requires d in Candidates(s, provider, model, args) && |OwnTexts(Candidates(s, provider, model, args))| == 1
    ensures var e := Candidates(s, provider, model, args)[0];
            && e.sp.provider == d.sp.provider && e.sp.client == d.sp.client
            && ModelOf(e.sp.tail) == ModelOf(d.sp.tail) && ModelOf(d.sp.tail).Ok?
  {
    var c := Candidates(s, provider, model, args);
    assert c[0] in c;
    CandidatesFit(s, provider, model, args, c[0]);
    CandidatesFit(s, provider, model, args, d);
    OneText(c, c[0], d);
    OwnTextInjective(c[0], d, model);
  }

  /** The order of the menu never matters: same refusal or same spec. */
  lemma ResolvePermuted(s: seq<string>, t: seq<string>, shown: string -> string, handle: string)
    requires multiset(s) == multiset(t)
    ensures Resolve(s, shown, handle) == Resolve(t, shown, handle)
  {
    ParseRowsPermuted(s, t);
    var a, b, h := ParseRows(s), ParseRows(t), TrimSpace(handle);
    SameCount(a, b);
    MatchAliasPermuted(a, b, shown, h);
    ParsedRowsClean(s);
    if ParseSpec(h).Ok? { ResolveSpecPermuted(a, b, ParseSpec(h).value); }
  }

  // --------------------------------------------- where a resolved spec comes from

  /** `r` runs row `e`: its head is the row's provider and client block. */
  ghost predicate Runs(r: string, e: Entry, tail: string) {
    r == Render(Spec(e.sp.provider, e.sp.client, tail, ""))
  }

  /** Key by key, the caller's arguments over the row's. */
  ghost predicate Overrides(merged: Values, own: Values, caller: Values) {
    && merged.Keys == own.Keys + caller.Keys
    && forall k :: k in merged ==> merged[k] == if k in caller then caller[k] else own[k]
  }

  /** The handle is the row's nickname or the label shown for it. */
  predicate NamedBy(e: Entry, shown: string -> string, h: string) {
    e.sp.nickname == h || shown(e.text) == h
  }

  /** Whatever `Resolve` returns runs a row of the menu: one named by the handle, with that
      row's tail, or one of the model asked for, with the caller's arguments over its own. */
  lemma ResolvedFromMenu(specs: seq<string>, shown: string -> string, handle: string)
    requires Resolve(specs, shown, handle).Ok?
    ensures exists e, tail ::
      && e in ParseRows(specs)
      && Runs(Resolve(specs, shown, handle).value, e, tail)
      && (FromSpecHandle(TrimSpace(handle), e, tail) || (tail == e.sp.tail && NamedBy(e, shown, TrimSpace(handle))))
  {
    var h, entries := TrimSpace(handle), ParseRows(specs);
    var r := Resolve(specs, shown, handle).value;
    ParsedRowsClean(specs);
    if ParseSpec(h).Ok? && ResolveSpec(entries, ParseSpec(h).value).Ok? {
      var e, tail := SpecHandleRow(entries, h);
      assert Runs(r, e, tail);
    } else {
      var e := MatchAlias(entries, shown, h).value;
      FilterMember(IsNamed(Nickname(), h), entries, e);
      FilterMember(IsNamed(Label(shown), h), entries, e);
      assert Runs(r, e, e.sp.tail);
    }
  }

  /** The tail of a match by spec: the row's model, the caller's arguments over the row's. */
  ghost predicate FromSpecHandle(h: string, e: Entry, tail: string) {
    exists model, own, caller, merged ::
      && ParseSpec(h).Ok? && ParseSpec(h).value.client == map[]
      && ParseSpec(h).value.provider == e.sp.provider
      && ModelOf(ParseSpec(h).value.tail) == Ok((model, caller))
      && ModelOf(e.sp.tail) == Ok((model, own))
      && Overrides(merged, own, caller)
      && ModelOf(tail) == Ok((model, merged))
  }

  lemma SpecHandleRow(entries: seq<Entry>, h: string) returns (e: Entry, tail: string)
    requires ParseSpec(h).Ok? && ResolveSpec(entries, ParseSpec(h).value).Ok?
    ensures e in entries && FromSpecHandle(h, e, tail)
    ensures Runs(ResolveSpec(entries, ParseSpec(h).value).value, e, tail)
  {
    var req := ParseSpec(h).value;
    var (model, caller) := ModelOf(req.tail).value;
    var c := Candidates(entries, req.provider, model, caller);
    e := c[0];
    assert e in c;
    CandidatesFit(entries, req.provider, model, caller, e);
    var own := ModelOf(e.sp.tail).value.1;
    var merged := own + caller;
    ModelHasNoQuestion(req.tail);
    ModelHasNoQuestion(e.sp.tail);
    ModelOfPrinted(model, merged);
    tail := model + ArgSuffix(merged);
    assert Overrides(merged, own, caller);
  }

  /** A returned text reads back: its head is the row's provider and client block, and when
      the tail is printable the whole spec parses back to exactly that row's. */
  lemma RunsReadsBack(r: string, e: Entry, tail: string)
    requires CleanRow(e) && Runs(r, e, tail)
    ensures SplitHead(r).Ok?
    ensures var (provider, block, t) := SplitHead(r).value;
            provider == e.sp.provider && ParseArgs(block) == Ok(e.sp.client)
    ensures PrintableTail(tail) ==>
              ParseSpec(r).Ok? && SameMeaning(Spec(e.sp.provider, e.sp.client, tail, ""), ParseSpec(r).value)
  {
    var sp := Spec(e.sp.provider, e.sp.client, tail, "");
    var t := CanonicalTail(tail);
    assert t + NicknameSuffix("") == t;
    SplitPrintedHead(e.sp.provider, e.sp.client, t);
    BlockReadsBack(e.sp.client);
    if PrintableTail(tail) { WellFormedRoundTrips(sp); }
  }

  /** Rows of the same provider, model, arguments and block run as the same text. */
  lemma SameRowSameText(d: Entry, e: Entry, model: string, args: Values)
    requires d.sp.provider == e.sp.provider && d.sp.client == e.sp.client
    requires ModelOf(d.sp.tail) == Ok((model, args)) == ModelOf(e.sp.tail)
    ensures OwnText(d) == OwnText(e) == RunText(d, model, args)
  {
  }

  lemma ExactTexts(entries: seq<Entry>, e: Entry, model: string, args: Values)
    requires e in entries && ModelOf(e.sp.tail) == Ok((model, args)) && NoEmptyList(args)
    requires forall d :: d in entries && d.sp.provider == e.sp.provider && ModelOf(d.sp.tail) == ModelOf(e.sp.tail) ==>
               d.sp.client == e.sp.client
    ensures var exact := Exact(entries, e.sp.provider, model, args);
            && exact != [] && OwnTexts(exact) == {OwnText(e)}
            && ModelOf(exact[0].sp.tail) == Ok((model, args)) && RunText(exact[0], model, args) == OwnText(e)
  {
    var exact := Exact(entries, e.sp.provider, model, args);
    ExactMember(entries, e.sp.provider, model, args, e);
    forall d | d in exact
      ensures OwnText(d) == OwnText(e) == RunText(d, model, args) && ModelOf(d.sp.tail) == Ok((model, args))
    {
      ExactRow(entries, e.sp.provider, model, args, d);
      SameRowSameText(d, e, model, args);
    }
    ExactTextsAgree(exact, e);
    assert exact[0] in exact;
  }

  /** Exact rows that all run as the same text resolve to it. */
  lemma OneTextResolves(entries: seq<Entry>, req: Spec, model: string, args: Values)
    requires req.client == map[] && ModelOf(req.tail) == Ok((model, args))
    requires var exact := Exact(entries, req.provider, model, args);
             exact != [] && |OwnTexts(exact)| == 1 && ModelOf(exact[0].sp.tail) == Ok((model, args))
    ensures ResolveSpec(entries, req) == Ok(RunText(Exact(entries, req.provider, model, args)[0], model, args))
  {
    assert args + args == args;
  }

  /** Being specific is never worse than being vague: a handle that reproduces a row's
      provider, model and arguments resolves to that row, unless another such row has a
      different client block. */
  lemma ExactHandleResolves(entries: seq<Entry>, e: Entry, req: Spec)
    requires e in entries && forall d :: d in entries ==> CleanRow(d)
    requires req.client == map[] && req.provider == e.sp.provider
    requires ModelOf(e.sp.tail).Ok? && ModelOf(req.tail) == ModelOf(e.sp.tail)
    requires forall d :: d in entries && d.sp.provider == e.sp.provider && ModelOf(d.sp.tail) == ModelOf(e.sp.tail) ==>
               d.sp.client == e.sp.client
    ensures ResolveSpec(entries, req) == Ok(OwnText(e))
  {
    var (model, args) := ModelOf(e.sp.tail).value;
    ModelHasNoQuestion(e.sp.tail);
    ExactTexts(entries, e, model, args);
    OneTextResolves(entries, req, model, args);
  }

  lemma ExactTextsAgree(exact: seq<Entry>, e: Entry)
    requires e in exact && forall d :: d in exact ==> OwnText(d) == OwnText(e)
    ensures OwnTexts(exact) == {OwnText(e)}
  {
  }

  lemma ExactMember(entries: seq<Entry>, provider: string, model: string, args: Values, e: Entry)
    requires e in entries && e.sp.provider == provider && ModelOf(e.sp.tail) == Ok((model, args))
    ensures e in Exact(entries, provider, model, args)
  {
    FilterMember(HasModel(provider, model), entries, e);
    FilterMember(HasArgs(args), ByModel(entries, provider, model), e);
  }

  lemma ExactRow(entries: seq<Entry>, provider: string, model: string, args: Values, d: Entry)
    requires NoEmptyList(args) && d in Exact(entries, provider, model, args)
    ensures d in entries && d.sp.provider == provider && ModelOf(d.sp.tail) == Ok((model, args))
  {
    FilterMember(HasArgs(args), ByModel(entries, provider, model), d);
    FilterMember(HasModel(provider, model), entries, d);
    ModelHasNoQuestion(d.sp.tail);
    EncodeInjective(ModelOf(d.sp.tail).value.1, args);
  }

  // ------------------------------------------------------------------- loops

  function RowOf(spec: string): seq<Entry> {
    match ParseSpec(spec)
    case Ok(sp) => [Entry(spec, sp)]
    case Err => []
  }

  lemma ParseRowsStep(specs: seq<string>, i: nat)
    requires i < |specs|
    ensures ParseRows(specs[i..]) == RowOf(specs[i]) + ParseRows(specs[i + 1..])
  {
    assert specs[i..][1..] == specs[i + 1..];
  }

  /** `Menu.parse` as the source runs it. */
  method ParseMenu(specs: seq<string>) returns (rows: seq<Entry>)
    ensures rows == ParseRows(specs)
  {
    rows := [];
    for i := 0 to |specs|
      invariant rows + ParseRows(specs[i..]) == ParseRows(specs)
    {
      ParseRowsStep(specs, i);
      Associative(rows, RowOf(specs[i]), ParseRows(specs[i + 1..]));
      match ParseSpec(specs[i]) {
        case Err =>
        case Ok(sp) => rows := rows + [Entry(specs[i], sp)];
      }
    }
  }

  lemma FilterAppend(p: Entry -> bool, s: seq<Entry>, n: nat)
    requires n < |s|
    ensures Filter(p, s[..n + 1]) == Filter(p, s[..n]) + (if p(s[n]) then [s[n]] else [])
  {
    FilterSnoc(p, s[..n], s[n]);
    assert s[..n + 1] == s[..n] + [s[n]];
  }

  lemma {:induction false} FilterSnoc(p: Entry -> bool, s: seq<Entry>, e: Entry)
    ensures Filter(p, s + [e]) == Filter(p, s) + (if p(e) then [e] else [])
  {
    if s == [] {
      assert s + [e] == [e];
    } else {
      FilterSnoc(p, s[1..], e);
      assert (s + [e])[1..] == s[1..] + [e];
    }
  }

  /** One pass of `matchAlias`: the first hit, and whether a second one follows. */
  method UniqueHit(entries: seq<Entry>, name: Entry -> string, handle: string)
    returns (hit: Option<Entry>, ambiguous: bool)
    ensures var hits := Filter(IsNamed(name, handle), entries);
            && (ambiguous <==> |hits| > 1)
            && (!ambiguous ==> hit == if |hits| == 1 then Some(hits[0]) else None)
  {
    ghost var p := IsNamed(name, handle);
    hit, ambiguous := None, false;
    for i := 0 to |entries|
      invariant !ambiguous
      invariant Filter(p, entries[..i]) == match hit { case None => [] case Some(e) => [e] }
    {
      FilterAppend(p, entries, i);
      if name(entries[i]) != handle { continue; }
      if hit.Some? {
        FilterGrows(p, entries, i + 1);
        return hit, true;
      }
      hit := Some(entries[i]);
    }
    assert entries[..|entries|] == entries;
  }

  lemma {:induction false} FilterGrows(p: Entry -> bool, s: seq<Entry>, n: nat)
    requires n <= |s|
    ensures |Filter(p, s)| >= |Filter(p, s[..n])|
    decreases |s| - n
  {
    if n == |s| {
      assert s[..n] == s;
    } else {
      FilterAppend(p, s, n);
      FilterGrows(p, s, n + 1);
    }
  }

  /** `matchAlias` as the source runs it: two passes, the nickname before the label. */
  method FindAlias(entries: seq<Entry>, shown: string -> string, handle: string) returns (r: Option<Entry>)
    ensures r == MatchAlias(entries, shown, handle)
  {
    var hit, ambiguous := UniqueHit(entries, Nickname(), handle);
    if ambiguous { return None; }
    if hit.Some? { return hit; }
    hit, ambiguous := UniqueHit(entries, Label(shown), handle);
    if ambiguous { return None; }
    return hit;
  }

  lemma OwnTextsSnoc(c: seq<Entry>, n: nat)
    requires n < |c|
    ensures OwnTexts(c[..n + 1]) == OwnTexts(c[..n]) + {OwnText(c[n])}
  {
    assert c[..n + 1] == c[..n] + [c[n]];
  }

  /** `resolveSpec` as the source runs it. */
  method FindSpec(entries: seq<Entry>, req: Spec) returns (r: Result<string>)
    ensures r == ResolveSpec(entries, req)
  {
    if req.client != map[] || ModelOf(req.tail).Err? { return Err; }
    var (model, args) := ModelOf(req.tail).value;
    var byModel, exact := FitRows(entries, req.provider, model, args);
    var candidates := if exact != [] then exact else byModel;
    r := RunCandidates(candidates, model, args);
  }

  /** Its loop: the rows of the model, and those of them with the caller's arguments. */
  method FitRows(entries: seq<Entry>, provider: string, model: string, args: Values)
    returns (byModel: seq<Entry>, exact: seq<Entry>)
    ensures byModel == ByModel(entries, provider, model) && exact == Exact(entries, provider, model, args)
  {
    var wanted := EncodeArgs(args);
    byModel, exact := [], [];
    ghost var p, q := HasModel(provider, model), HasArgs(args);
    for i := 0 to |entries|
      invariant byModel == Filter(p, entries[..i]) && exact == Filter(q, byModel)
    {
      FilterAppend(p, entries, i);
      if SameModel(entries[i], provider, model) {
        FilterSnoc(q, byModel, entries[i]);
        byModel := byModel + [entries[i]];
        var own := EncodeArgs(ModelOf(entries[i].sp.tail).value.1);
        if own == wanted { exact := exact + [entries[i]]; }
      }
    }
    assert entries[..|entries|] == entries;
  }

  /** The second half of `resolveSpec`: one canonical text, or a refusal. */
  method RunCandidates(candidates: seq<Entry>, model: string, args: Values) returns (r: Result<string>)
    ensures r == if candidates == [] || |OwnTexts(candidates)| != 1 || ModelOf(candidates[0].sp.tail).Err? then Err
                 else Ok(RunText(candidates[0], model, ModelOf(candidates[0].sp.tail).value.1 + args))
  {
    if candidates == [] { return Err; }
    var resolved := {};
    for i := 0 to |candidates|
      invariant resolved == OwnTexts(candidates[..i])
    {
      OwnTextsSnoc(candidates, i);
      var text := "";
      match ModelOf(candidates[i].sp.tail) {
        case Err =>
        case Ok((m, own)) =>
          var suffix := PrintArgSuffix(own);
          text := Print(Spec(candidates[i].sp.provider, candidates[i].sp.client, m + suffix, ""));
      }
      resolved := resolved + {text};
    }
    assert candidates[..|candidates|] == candidates;
    var entry := candidates[0];
    if |resolved| != 1 || ModelOf(entry.sp.tail).Err? { return Err; }
    var suffix := PrintArgSuffix(ModelOf(entry.sp.tail).value.1 + args);
    var text := Print(Spec(entry.sp.provider, entry.sp.client, model + suffix, ""));
    return Ok(text);
  }
}
