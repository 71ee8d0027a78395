/** What a handle resolves to, said over the rows of the menu: which rows it names, and which
    rows it fits as a spec. */
module MenuRows {
  import opened Text
  import opened Args
  import opened SpecLang
  import opened SpecRoundTrip
  import opened Menu

  // ------------------------------------------------------------------ by name

  /** Row `i` of the menu parses, and the operator calls it `h`. */
  predicate Nicknamed(specs: seq<string>, i: nat, h: string) {
    i < |specs| && ParseSpec(specs[i]).Ok? && ParseSpec(specs[i]).value.nickname == h
  }

  /** Row `i` of the menu parses, and the picker shows it as `h`. */
  predicate Labelled(specs: seq<string>, shown: string -> string, i: nat, h: string) {
    i < |specs| && ParseSpec(specs[i]).Ok? && shown(specs[i]) == h
  }

  /** Row `i` as it is run: its canonical text without the nickname. */
  ghost function RowText(specs: seq<string>, i: nat): string
    requires i < |specs| && ParseSpec(specs[i]).Ok?
  {
    var sp := ParseSpec(specs[i]).value;
    Render(Spec(sp.provider, sp.client, sp.tail, ""))
  }

  /** The handle resolves as a spec against the rows. */
  ghost predicate ResolvesAsSpec(specs: seq<string>, h: string) {
    ParseSpec(h).Ok? && ResolveSpec(ParseRows(specs), ParseSpec(h).value).Ok?
  }

  // The menu as its rows, None where a row does not parse.

  function Parsed(spec: string): Option<Entry> {
    match ParseSpec(spec)
    case Ok(sp) => Some(Entry(spec, sp))
    case Err => None
  }

  function Rows(specs: seq<string>): (rows: seq<Option<Entry>>)
    ensures |rows| == |specs| && forall i :: 0 <= i < |specs| ==> rows[i] == Parsed(specs[i])
  {
    seq(|specs|, i requires 0 <= i < |specs| => Parsed(specs[i]))
  }

  function Those(rows: seq<Option<Entry>>, p: Entry -> bool): seq<Entry> {
    if rows == [] then []
    else (if RowIs(rows, p, 0) then [rows[0].value] else []) + Those(rows[1..], p)
  }

  predicate RowIs(rows: seq<Option<Entry>>, p: Entry -> bool, i: nat) {
    i < |rows| && rows[i].Some? && p(rows[i].value)
  }

  lemma {:induction false} ThoseParsed(specs: seq<string>, p: Entry -> bool)
    ensures Filter(p, ParseRows(specs)) == Those(Rows(specs), p)
  {
    if specs != [] {
      ThoseParsed(specs[1..], p);
      assert Rows(specs)[1..] == Rows(specs[1..]);
      ParsedFirst(specs, p);
    }
  }

  lemma ParsedFirst(specs: seq<string>, p: Entry -> bool)
    requires specs != []
    ensures Filter(p, ParseRows(specs)) ==
            (if RowIs(Rows(specs), p, 0) then [Parsed(specs[0]).value] else []) + Filter(p, ParseRows(specs[1..]))
  {
    if Parsed(specs[0]).Some? {
      FilterCons(p, Parsed(specs[0]).value, ParseRows(specs[1..]));
    }
  }

  lemma FilterCons(p: Entry -> bool, e: Entry, rest: seq<Entry>)
    ensures Filter(p, [e] + rest) == (if p(e) then [e] else []) + Filter(p, rest)
  {
    assert ([e] + rest)[1..] == rest;
  }

  /** No row is such. */
  ghost predicate NoRow(rows: seq<Option<Entry>>, p: Entry -> bool) {
    forall i: nat :: !RowIs(rows, p, i)
  }

  /** Row `i` and no other is such. */
  ghost predicate OnlyRow(rows: seq<Option<Entry>>, p: Entry -> bool, i: nat) {
    RowIs(rows, p, i) && forall j: nat :: j != i ==> !RowIs(rows, p, j)
  }

  lemma Later(rows: seq<Option<Entry>>, p: Entry -> bool)
    requires rows != []
    ensures forall i: nat :: RowIs(rows[1..], p, i) <==> RowIs(rows, p, i + 1)
  {
  }

  lemma {:induction false} ThoseNone(rows: seq<Option<Entry>>, p: Entry -> bool)
    requires NoRow(rows, p)
    ensures Those(rows, p) == []
  {
    if rows != [] {
      Later(rows, p);
      ThoseNone(rows[1..], p);
    }
  }

  lemma {:induction false} ThoseSome(rows: seq<Option<Entry>>, p: Entry -> bool, i: nat)
    requires RowIs(rows, p, i)
    ensures Those(rows, p) != []
  {
    Later(rows, p);
    if i > 0 { ThoseSome(rows[1..], p, i - 1); }
  }

  lemma {:induction false} ThoseOne(rows: seq<Option<Entry>>, p: Entry -> bool, i: nat)
    requires OnlyRow(rows, p, i)
    ensures Those(rows, p) == [rows[i].value]
  {
    Later(rows, p);
    if i == 0 {
      ThoseNone(rows[1..], p);
    } else {
      ThoseOne(rows[1..], p, i - 1);
    }
  }

  lemma {:induction false} ThoseTwo(rows: seq<Option<Entry>>, p: Entry -> bool, i: nat, j: nat)
    requires RowIs(rows, p, i) && RowIs(rows, p, j) && i < j
    ensures |Those(rows, p)| > 1
  {
    Later(rows, p);
    if i == 0 {
      ThoseSome(rows[1..], p, j - 1);
    } else {
      ThoseTwo(rows[1..], p, i - 1, j - 1);
    }
  }

  lemma NicknameRows(specs: seq<string>, h: string)
    ensures forall i: nat :: RowIs(Rows(specs), IsNamed(Nickname(), h), i) <==> Nicknamed(specs, i, h)
  {
  }

  lemma LabelRows(specs: seq<string>, shown: string -> string, h: string)
    ensures forall i: nat :: RowIs(Rows(specs), IsNamed(Label(shown), h), i) <==> Labelled(specs, shown, i, h)
  {
  }

  /** A name that no row has, that one row has, or that two rows have. */
  lemma NamedRows(specs: seq<string>, p: Entry -> bool)
    ensures NoRow(Rows(specs), p) ==> Filter(p, ParseRows(specs)) == []
    ensures forall i: nat :: OnlyRow(Rows(specs), p, i) ==> Filter(p, ParseRows(specs)) == [Rows(specs)[i].value]
    ensures forall i: nat, j: nat :: i < j && RowIs(Rows(specs), p, i) && RowIs(Rows(specs), p, j) ==>
                                       |Filter(p, ParseRows(specs))| > 1
  {
    ThoseParsed(specs, p);
    if NoRow(Rows(specs), p) { ThoseNone(Rows(specs), p); }
    forall i: nat | OnlyRow(Rows(specs), p, i) ensures Those(Rows(specs), p) == [Rows(specs)[i].value] {
      ThoseOne(Rows(specs), p, i);
    }
    forall i: nat, j: nat | i < j && RowIs(Rows(specs), p, i) && RowIs(Rows(specs), p, j)
      ensures |Those(Rows(specs), p)| > 1
    {
      ThoseTwo(Rows(specs), p, i, j);
    }
  }

  /** A handle that resolves as a spec gives that result, whatever it may also name. */
  lemma SpecWins(specs: seq<string>, shown: string -> string, handle: string)
    requires TrimSpace(handle) != "" && ResolvesAsSpec(specs, TrimSpace(handle))
    ensures Resolve(specs, shown, handle) == ResolveSpec(ParseRows(specs), ParseSpec(TrimSpace(handle)).value)
  {
    var req := ParseSpec(TrimSpace(handle)).value;
    var (model, args) := ModelOf(req.tail).value;
    assert ByModel([], req.provider, model) == [];
    assert Exact([], req.provider, model, args) == [];
  }

  lemma ByName(specs: seq<string>, shown: string -> string, handle: string)
    requires TrimSpace(handle) != "" && !ResolvesAsSpec(specs, TrimSpace(handle))
    ensures Resolve(specs, shown, handle) ==
            match MatchAlias(ParseRows(specs), shown, TrimSpace(handle))
            case Some(e) => Ok(EntryText(e))
            case None => Err
  {
  }

  /** The one row with that nickname is what the handle resolves to, whatever the labels are. */
  lemma NicknameResolves(specs: seq<string>, shown: string -> string, handle: string, i: nat)
    requires TrimSpace(handle) != "" && !ResolvesAsSpec(specs, TrimSpace(handle))
    requires Nicknamed(specs, i, TrimSpace(handle))
    requires forall j: nat :: j != i ==> !Nicknamed(specs, j, TrimSpace(handle))
    ensures Resolve(specs, shown, handle) == Ok(RowText(specs, i))
  {
    NicknameRows(specs, TrimSpace(handle));
    NamedRows(specs, IsNamed(Nickname(), TrimSpace(handle)));
    assert OnlyRow(Rows(specs), IsNamed(Nickname(), TrimSpace(handle)), i);
    ByName(specs, shown, handle);
  }

  /** With no such nickname, it is the one row that is shown under that label. */
  lemma LabelResolves(specs: seq<string>, shown: string -> string, handle: string, i: nat)
    requires TrimSpace(handle) != "" && !ResolvesAsSpec(specs, TrimSpace(handle))
    requires forall j: nat :: !Nicknamed(specs, j, TrimSpace(handle))
    requires Labelled(specs, shown, i, TrimSpace(handle))
    requires forall j: nat :: j != i ==> !Labelled(specs, shown, j, TrimSpace(handle))
    ensures Resolve(specs, shown, handle) == Ok(RowText(specs, i))
  {
    NicknameRows(specs, TrimSpace(handle));
    NamedRows(specs, IsNamed(Nickname(), TrimSpace(handle)));
    assert NoRow(Rows(specs), IsNamed(Nickname(), TrimSpace(handle)));
    LabelRows(specs, shown, TrimSpace(handle));
    NamedRows(specs, IsNamed(Label(shown), TrimSpace(handle)));
    assert OnlyRow(Rows(specs), IsNamed(Label(shown), TrimSpace(handle)), i);
    ByName(specs, shown, handle);
  }

  ghost predicate TwoNicknamed(specs: seq<string>, h: string) {
    exists i: nat, j: nat :: i < j && Nicknamed(specs, i, h) && Nicknamed(specs, j, h)
  }

  ghost predicate TwoLabelled(specs: seq<string>, shown: string -> string, h: string) {
    exists i: nat, j: nat :: i < j && Labelled(specs, shown, i, h) && Labelled(specs, shown, j, h)
  }

  /** Two rows of one nickname are refused, and so is a name that is no nickname and the label
      of no row or of two, and a blank handle. */
  lemma OthersAreRefused(specs: seq<string>, shown: string -> string, handle: string)
    requires !ResolvesAsSpec(specs, TrimSpace(handle))
    requires var h := TrimSpace(handle);
             || h == "" || TwoNicknamed(specs, h)
             || ((forall j: nat :: !Nicknamed(specs, j, h)) && forall j: nat :: !Labelled(specs, shown, j, h))
             || ((forall j: nat :: !Nicknamed(specs, j, h)) && TwoLabelled(specs, shown, h))
    ensures Resolve(specs, shown, handle) == Err
  {
    var h := TrimSpace(handle);
    NicknameRows(specs, h);
    LabelRows(specs, shown, h);
    NamedRows(specs, IsNamed(Nickname(), h));
    NamedRows(specs, IsNamed(Label(shown), h));
    if h != "" && !TwoNicknamed(specs, h) {
      assert NoRow(Rows(specs), IsNamed(Nickname(), h));
      assert !TwoLabelled(specs, shown, h) ==> NoRow(Rows(specs), IsNamed(Label(shown), h));
    }
    if h != "" { ByName(specs, shown, handle); }
  }

  // ------------------------------------------------------------------ by spec

  /** The row has the provider and model asked for. */
  predicate Fits(e: Entry, provider: string, model: string) {
    e.sp.provider == provider && ModelOf(e.sp.tail).Ok? && ModelOf(e.sp.tail).value.0 == model
  }

  /** The rows a caller may mean: those whose arguments it reproduced, if there are any, else
      all that fit. */
  ghost predicate Meant(entries: seq<Entry>, provider: string, model: string, args: Values, e: Entry) {
    && e in entries && Fits(e, provider, model)
    && ((exists d :: d in entries && Fits(d, provider, model) && ModelOf(d.sp.tail).value.1 == args) ==>
          ModelOf(e.sp.tail).value.1 == args)
  }

  lemma MeantIsCandidate(entries: seq<Entry>, provider: string, model: string, args: Values, e: Entry)
    requires NoEmptyList(args)
    ensures e in Candidates(entries, provider, model, args) <==> Meant(entries, provider, model, args, e)
  {
    ExactIs(entries, provider, model, args, e);
    FilterMember(HasModel(provider, model), entries, e);
    var exact := Exact(entries, provider, model, args);
    if exact != [] {
      ExactIs(entries, provider, model, args, exact[0]);
    } else if d :| d in entries && Fits(d, provider, model) && ModelOf(d.sp.tail).value.1 == args {
      ExactIs(entries, provider, model, args, d);
    }
  }

  lemma ExactIs(entries: seq<Entry>, provider: string, model: string, args: Values, e: Entry)
    requires NoEmptyList(args)
    ensures e in Exact(entries, provider, model, args) <==>
            e in entries && Fits(e, provider, model) && ModelOf(e.sp.tail).value.1 == args
  {
    FilterMember(HasArgs(args), ByModel(entries, provider, model), e);
    FilterMember(HasModel(provider, model), entries, e);
    if e in Exact(entries, provider, model, args) { ExactRow(entries, provider, model, args, e); }
  }

  /** A handle with client arguments is refused. */
  lemma ClientIsRefused(entries: seq<Entry>, req: Spec)
    requires req.client != map[]
    ensures ResolveSpec(entries, req) == Err
  {
  }

  /** The rows meant differ in nothing that matters. */
  ghost predicate AllAlike(entries: seq<Entry>, provider: string, model: string, args: Values) {
    forall d, e :: Meant(entries, provider, model, args, d) && Meant(entries, provider, model, args, e) ==>
                     d.sp.client == e.sp.client && ModelOf(d.sp.tail) == ModelOf(e.sp.tail)
  }

  /** A spec resolves exactly if it means some row and the rows it means have one client block
      and the same arguments; then to that block, with the caller's arguments over the row's. */
  lemma ResolveSpecIff(entries: seq<Entry>, req: Spec, model: string, args: Values)
    requires (forall e :: e in entries ==> CleanRow(e)) && req.client == map[]
    requires ModelOf(req.tail) == Ok((model, args))
    ensures ResolveSpec(entries, req).Ok? <==>
            && (exists e :: Meant(entries, req.provider, model, args, e))
            && AllAlike(entries, req.provider, model, args)
    ensures ResolveSpec(entries, req).Ok? ==>
            forall e :: Meant(entries, req.provider, model, args, e) ==>
              ResolveSpec(entries, req).value
              == RunText(e, model, ModelOf(e.sp.tail).value.1 + args)
  {
    ModelHasNoQuestion(req.tail);
    forall e ensures e in Candidates(entries, req.provider, model, args)
                     <==> Meant(entries, req.provider, model, args, e) {
      MeantIsCandidate(entries, req.provider, model, args, e);
    }
    var c := Candidates(entries, req.provider, model, args);
    if c != [] {
      assert c[0] in c;
      if AllAlike(entries, req.provider, model, args) {
        AlikeIsOneText(c, c[0]);
      } else if |OwnTexts(c)| == 1 {
        OneTextIsAlike(entries, req.provider, model, args);
      }
      if |OwnTexts(c)| == 1 {
        OneTextIsAlike(entries, req.provider, model, args);
      }
    }
  }

  lemma AlikeIsOneText(c: seq<Entry>, e: Entry)
    requires e in c
    requires forall d :: d in c ==> d.sp.provider == e.sp.provider && d.sp.client == e.sp.client
                                    && ModelOf(d.sp.tail) == ModelOf(e.sp.tail)
    ensures OwnTexts(c) == {OwnText(e)}
  {
    forall d | d in c ensures OwnText(d) == OwnText(e) {
    }
  }

  lemma OneTextIsAlike(entries: seq<Entry>, provider: string, model: string, args: Values)
    requires (forall e :: e in entries ==> CleanRow(e)) && NoEmptyList(args)
    requires |OwnTexts(Candidates(entries, provider, model, args))| == 1
    ensures AllAlike(entries, provider, model, args)
  {
    var c := Candidates(entries, provider, model, args);
    forall d, e | Meant(entries, provider, model, args, d) && Meant(entries, provider, model, args, e)
      ensures d.sp.client == e.sp.client && ModelOf(d.sp.tail) == ModelOf(e.sp.tail)
    {
      MeantIsCandidate(entries, provider, model, args, d);
      MeantIsCandidate(entries, provider, model, args, e);
      OneText(c, d, e);
      OwnTextInjective(d, e, model);
    }
  }
}
