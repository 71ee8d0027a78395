/** The image window of one request: which images are kept under a provider's limits, and
    what that choice does as a history grows. */
module Images {
  import opened Text

  /** A field that is not positive means no limit. */
  datatype Limits = Limits(maxImages: int, maxImageBytes: int, maxTotalBytes: int) {
    function PerImage(): int {
      if maxTotalBytes > 0 && (maxImageBytes == 0 || maxTotalBytes < maxImageBytes) then
        maxTotalBytes
      else
        maxImageBytes
    }

    predicate TooLarge(size: nat) {
      0 < PerImage() < size
    }

    predicate Over(count: nat, bytes: int) {
      (0 < maxImages < count) || (0 < maxTotalBytes < bytes)
    }

    /** Over three quarters of a cap. */
    predicate OverLowWater(count: nat, bytes: int) {
      (maxImages > 0 && count > 3 * maxImages / 4) || (maxTotalBytes > 0 && bytes > 3 * maxTotalBytes / 4)
    }

    /** A negative per-image limit switches the per-image check off, also the one that the
        total implies. */
    predicate Sane() {
      maxImageBytes >= 0 || maxTotalBytes <= 0
    }
  }

  // -------------------------------------------------------------- the cut

  // Sizes stand for images, oldest first.  `fit` lists those that fit on their own; the
  // window is all of them from a cut on.

  /** Bytes of the first `n`. */
  function Bytes(fit: seq<nat>, n: nat): nat
    requires n <= |fit|
  {
    if n == 0 then 0 else Bytes(fit, n - 1) + fit[n - 1]
  }

  predicate Over(fit: seq<nat>, lim: Limits, c: nat, n: nat)
    requires c <= n <= |fit|
  {
    lim.Over(n - c, Bytes(fit, n) - Bytes(fit, c))
  }

  predicate OverLowWater(fit: seq<nat>, lim: Limits, c: nat, n: nat)
    requires c <= n <= |fit|
  {
    lim.OverLowWater(n - c, Bytes(fit, n) - Bytes(fit, c))
  }

  /** The inner loop: move the cut until the rest is below the low water mark. */
  function Trim(fit: seq<nat>, lim: Limits, c: nat, n: nat): (r: nat)
    requires c <= n <= |fit|
    ensures c <= r <= n
    ensures c < n ==> r < n
    ensures n - r <= 1 || !OverLowWater(fit, lim, r, n)
    ensures n - c > 1 && OverLowWater(fit, lim, c, n) ==> c < r
    decreases n - c
  {
    if n - c > 1 && OverLowWater(fit, lim, c, n) then Trim(fit, lim, c + 1, n) else c
  }

  /** The cut after the first `n`. */
  function Cut(fit: seq<nat>, lim: Limits, n: nat): (c: nat)
    requires n <= |fit|
    ensures c <= n && (0 < n ==> c < n)
  {
    if n == 0 then 0 else
      var c := Cut(fit, lim, n - 1);
      if Over(fit, lim, c, n) then Trim(fit, lim, c, n) else c
  }

  predicate AllFit(fit: seq<nat>, lim: Limits) {
    forall i :: 0 <= i < |fit| ==> !lim.TooLarge(fit[i])
  }

  /** The window meets every cap. */
  lemma {:induction false} CutMeetsCaps(fit: seq<nat>, lim: Limits, n: nat)
    requires n <= |fit| && AllFit(fit, lim) && lim.Sane()
    ensures !Over(fit, lim, Cut(fit, lim, n), n)
  {
    if n > 0 {
      var c := Cut(fit, lim, n);
      if n - c == 1 { assert Bytes(fit, n) - Bytes(fit, c) == fit[n - 1]; }
    }
  }

  /** Without any premise: the window meets the caps, or is one image. */
  lemma CutMeetsCapsOrOne(fit: seq<nat>, lim: Limits, n: nat)
    requires n <= |fit|
    ensures n - Cut(fit, lim, n) <= 1 || !Over(fit, lim, Cut(fit, lim, n), n)
  {
  }

  lemma {:induction false} BytesGrow(fit: seq<nat>, n: nat, m: nat)
    requires n <= m <= |fit|
    ensures Bytes(fit, n) <= Bytes(fit, m)
    decreases m
  {
    if n < m { BytesGrow(fit, n, m - 1); }
  }

  /** What was cut stays cut. */
  lemma {:induction false} CutGrows(fit: seq<nat>, lim: Limits, n: nat, m: nat)
    requires n <= m <= |fit|
    ensures Cut(fit, lim, n) <= Cut(fit, lim, m)
    decreases m
  {
    if n < m { CutGrows(fit, lim, n, m - 1); }
  }

  lemma {:induction false} CutStays(fit: seq<nat>, lim: Limits, n: nat, m: nat)
    requires n <= m <= |fit| && !Over(fit, lim, Cut(fit, lim, n), m)
    ensures Cut(fit, lim, m) == Cut(fit, lim, n)
    decreases m
  {
    if n < m {
      BytesGrow(fit, m - 1, m);
      CutStays(fit, lim, n, m - 1);
    }
  }

  /** The cut stays where it is exactly as long as the window and everything newer meet the
      caps together, or are one image. */
  lemma CutStaysIff(fit: seq<nat>, lim: Limits, n: nat, m: nat)
    requires n <= m <= |fit|
    ensures Cut(fit, lim, m) == Cut(fit, lim, n) <==> m - Cut(fit, lim, n) <= 1 || !Over(fit, lim, Cut(fit, lim, n), m)
  {
    CutMeetsCapsOrOne(fit, lim, m);
    if !Over(fit, lim, Cut(fit, lim, n), m) { CutStays(fit, lim, n, m); }
    if m == 1 { assert Cut(fit, lim, 1) == 0; }
  }

  /** A trim drops no more than it has to: at every image it drops there were others, and the rest
      was over three quarters of a cap. */
  lemma {:induction false} TrimIsLeast(fit: seq<nat>, lim: Limits, c: nat, n: nat, k: nat)
    requires c <= n <= |fit| && c <= k < Trim(fit, lim, c, n)
    ensures n - k > 1
    ensures var bytes := Bytes(fit, n) - Bytes(fit, k);
            || 0 < 3 * lim.maxImages < 4 * (n - k)
            || 0 < 3 * lim.maxTotalBytes < 4 * bytes
    decreases k - c
  {
    if c < k { TrimIsLeast(fit, lim, c + 1, n, k); }
  }

  /** A trim leaves one image, or at most three quarters of each cap. */
  lemma TrimLeavesRoom(fit: seq<nat>, lim: Limits, n: nat)
    requires 0 < n <= |fit| && Cut(fit, lim, n - 1) < Cut(fit, lim, n)
    ensures n - Cut(fit, lim, n) == 1 || !OverLowWater(fit, lim, Cut(fit, lim, n), n)
  {
  }

  /** After a trim that left more than one image, the cut stays while the newer images take
      no more than a quarter of each cap. */
  lemma QuarterIsFree(fit: seq<nat>, lim: Limits, n: nat, m: nat)
    requires 0 < n <= m <= |fit|
    requires Cut(fit, lim, n - 1) < Cut(fit, lim, n) < n - 1
    requires lim.maxImages > 0 ==> 4 * (m - n) <= lim.maxImages
    requires lim.maxTotalBytes > 0 ==> 4 * (Bytes(fit, m) - Bytes(fit, n)) <= lim.maxTotalBytes
    ensures Cut(fit, lim, m) == Cut(fit, lim, n)
  {
    TrimLeavesRoom(fit, lim, n);
    CutStays(fit, lim, n, m);
  }

  /** The cut depends only on the images so far. */
  lemma {:induction false} CutOfPrefix(fit: seq<nat>, more: seq<nat>, lim: Limits, n: nat)
    requires n <= |fit|
    ensures Cut(fit + more, lim, n) == Cut(fit, lim, n)
  {
    if n > 0 {
      CutOfPrefix(fit, more, lim, n - 1);
      TrimOfPrefix(fit, more, lim, Cut(fit, lim, n - 1), n);
    }
  }

  lemma {:induction false} TrimOfPrefix(fit: seq<nat>, more: seq<nat>, lim: Limits, c: nat, n: nat)
    requires c <= n <= |fit|
    ensures Over(fit + more, lim, c, n) == Over(fit, lim, c, n)
    ensures Trim(fit + more, lim, c, n) == Trim(fit, lim, c, n)
    decreases n - c
  {
    BytesOfPrefix(fit, more, c);
    BytesOfPrefix(fit, more, n);
    if c < n { TrimOfPrefix(fit, more, lim, c + 1, n); }
  }

  lemma {:induction false} BytesOfPrefix(fit: seq<nat>, more: seq<nat>, n: nat)
    requires n <= |fit|
    ensures Bytes(fit + more, n) == Bytes(fit, n)
  {
    if n > 0 { BytesOfPrefix(fit, more, n - 1); }
  }

  /** The window on its own is not cut again. */
  lemma {:induction false} WindowIsStable(fit: seq<nat>, lim: Limits, c: nat, n: nat)
    requires c + n <= |fit| && !Over(fit, lim, c, |fit|)
    ensures Cut(fit[c..], lim, n) == 0
  {
    if n > 0 {
      WindowIsStable(fit, lim, c, n - 1);
      BytesOfSuffix(fit, c, n);
      BytesGrow(fit, c + n, |fit|);
    }
  }

  lemma {:induction false} BytesOfSuffix(fit: seq<nat>, c: nat, n: nat)
    requires c + n <= |fit|
    ensures Bytes(fit[c..], n) == Bytes(fit, c + n) - Bytes(fit, c)
  {
    if n > 0 { BytesOfSuffix(fit, c, n - 1); }
  }

  // ------------------------------------------------------- all the images

  /** The sizes, among the first `k`, that fit on their own. */
  function Fit(all: seq<nat>, lim: Limits, k: nat): (fit: seq<nat>)
    requires k <= |all|
    ensures |fit| <= k
  {
    if k == 0 then [] else Fit(all, lim, k - 1) + if lim.TooLarge(all[k - 1]) then [] else [all[k - 1]]
  }

  lemma {:induction false} FitIsFit(all: seq<nat>, lim: Limits, k: nat)
    requires k <= |all|
    ensures AllFit(Fit(all, lim, k), lim)
  {
    if k > 0 { FitIsFit(all, lim, k - 1); }
  }

  lemma {:induction false} FitPrefix(all: seq<nat>, more: seq<nat>, lim: Limits, k: nat, m: nat)
    requires k <= m <= |all + more| && k <= |all|
    ensures exists tail: seq<nat> :: Fit(all + more, lim, m) == Fit(all, lim, k) + tail
    decreases k + m
  {
    if k == m {
      if k > 0 { FitPrefix(all, more, lim, k - 1, m - 1); }
      FitSame(all, more, lim, k);
      assert Fit(all + more, lim, m) == Fit(all, lim, k) + [];
    } else {
      FitPrefix(all, more, lim, k, m - 1);
      var tail: seq<nat> :| Fit(all + more, lim, m - 1) == Fit(all, lim, k) + tail;
      var last: seq<nat> := if lim.TooLarge((all + more)[m - 1]) then [] else [(all + more)[m - 1]];
      assert Fit(all, lim, k) + tail + last == Fit(all, lim, k) + (tail + last);
    }
  }

  lemma {:induction false} FitSame(all: seq<nat>, more: seq<nat>, lim: Limits, k: nat)
    requires k <= |all|
    ensures Fit(all + more, lim, k) == Fit(all, lim, k)
  {
    if k > 0 { FitSame(all, more, lim, k - 1); }
  }

  /** With the cut at `c` the image at `g` is omitted: too large on its own, or before the cut. */
  predicate Falls(all: seq<nat>, lim: Limits, c: nat, g: nat)
    requires g < |all|
  {
    lim.TooLarge(all[g]) || |Fit(all, lim, g)| < c
  }

  /** It is kept: it fits on its own and lies past the final cut. */
  predicate Keep(all: seq<nat>, lim: Limits, g: nat)
    requires g < |all|
  {
    !Falls(all, lim, CutOf(all, lim), g)
  }

  function CutOf(all: seq<nat>, lim: Limits): nat {
    var fit := Fit(all, lim, |all|);
    Cut(fit, lim, |fit|)
  }

  /** The sizes kept among the first `k` when the cut is at `c`. */
  function KeptFrom(all: seq<nat>, lim: Limits, c: nat, k: nat): (r: seq<nat>)
    requires k <= |all|
    ensures |r| <= k
  {
    if k == 0 then
      []
    else
      KeptFrom(all, lim, c, k - 1) + if Falls(all, lim, c, k - 1) then [] else [all[k - 1]]
  }

  function Kept(all: seq<nat>, lim: Limits, k: nat): (r: seq<nat>)
    requires k <= |all|
    ensures |r| <= k
  {
    KeptFrom(all, lim, CutOf(all, lim), k)
  }

  lemma {:induction false} KeptFromIsNewest(all: seq<nat>, lim: Limits, c: nat, k: nat)
    requires k <= |all|
    ensures var fit := Fit(all, lim, k); KeptFrom(all, lim, c, k) == if c <= |fit| then fit[c..] else []
  {
    if k > 0 { KeptFromIsNewest(all, lim, c, k - 1); }
  }

  /** What is kept is the newest of the images that fit on their own. */
  lemma KeptIsNewest(all: seq<nat>, lim: Limits, k: nat)
    requires k <= |all|
    ensures var fit, c := Fit(all, lim, k), CutOf(all, lim);
            Kept(all, lim, k) == if c <= |fit| then fit[c..] else []
  {
    KeptFromIsNewest(all, lim, CutOf(all, lim), k);
  }

  /** The sizes meet every cap. */
  predicate Within(s: seq<nat>, lim: Limits) {
    AllFit(s, lim) && !lim.Over(|s|, Bytes(s, |s|))
  }

  lemma WindowIsWithin(fit: seq<nat>, lim: Limits, c: nat)
    requires AllFit(fit, lim) && c <= |fit| && !Over(fit, lim, c, |fit|)
    ensures Within(fit[c..], lim)
  {
    BytesOfSuffix(fit, c, |fit| - c);
  }

  lemma KeptIsWithin(all: seq<nat>, lim: Limits)
    requires lim.Sane()
    ensures Within(Kept(all, lim, |all|), lim)
  {
    var fit := Fit(all, lim, |all|);
    KeptIsNewest(all, lim, |all|);
    FitIsFit(all, lim, |all|);
    CutMeetsCaps(fit, lim, |fit|);
    WindowIsWithin(fit, lim, CutOf(all, lim));
  }

  /** The caps are met on every history exactly when the limits are sane. */
  lemma KeptIsWithinIff(lim: Limits)
    ensures lim.Sane() <==> forall all: seq<nat> :: Within(Kept(all, lim, |all|), lim)
  {
    if lim.Sane() {
      forall all: seq<nat> ensures Within(Kept(all, lim, |all|), lim) { KeptIsWithin(all, lim); }
    } else {
      var all: seq<nat> := [lim.maxTotalBytes + 1];
      assert Fit(all, lim, 0) == [] && Fit(all, lim, 1) == all;
      assert Cut(all, lim, 1) == 0;
      assert Kept(all, lim, 0) == [] && Kept(all, lim, 1) == all;
      assert Bytes(all, 0) == 0 && Bytes(all, 1) == all[0];
      assert !Within(Kept(all, lim, |all|), lim);
    }
  }

  /** The sizes fit on their own and meet the caps together, or are one image. */
  predicate Settled(s: seq<nat>, lim: Limits) {
    AllFit(s, lim) && (|s| <= 1 || !lim.Over(|s|, Bytes(s, |s|)))
  }

  /** Such images are all kept. */
  lemma SettledIsKept(all: seq<nat>, lim: Limits, g: nat)
    requires Settled(all, lim) && g < |all|
    ensures Keep(all, lim, g)
  {
    FitOfWithin(all, lim, |all|);
    assert all[..|all|] == all;
    if |all| == 1 {
      assert Cut(all, lim, 1) == 0;
    } else {
      assert all[0..] == all;
      WindowIsStable(all, lim, 0, |all|);
    }
  }

  /** What is kept is settled, whatever the limits. */
  lemma KeptIsSettled(all: seq<nat>, lim: Limits)
    ensures Settled(Kept(all, lim, |all|), lim)
  {
    var fit := Fit(all, lim, |all|);
    KeptIsNewest(all, lim, |all|);
    FitIsFit(all, lim, |all|);
    CutMeetsCapsOrOne(fit, lim, |fit|);
    SuffixIsSettled(fit, lim, CutOf(all, lim));
  }

  lemma SuffixIsSettled(fit: seq<nat>, lim: Limits, c: nat)
    requires AllFit(fit, lim) && c <= |fit| && (|fit| - c <= 1 || !Over(fit, lim, c, |fit|))
    ensures Settled(fit[c..], lim)
  {
    BytesOfSuffix(fit, c, |fit| - c);
  }

  lemma {:induction false} FitOfWithin(all: seq<nat>, lim: Limits, k: nat)
    requires AllFit(all, lim) && k <= |all|
    ensures Fit(all, lim, k) == all[..k]
  {
    if k > 0 { FitOfWithin(all, lim, k - 1); }
  }

  /** Appending images never brings an omitted one back. */
  lemma OmittedStaysOmitted(all: seq<nat>, more: seq<nat>, lim: Limits, g: nat)
    requires g < |all| && !Keep(all, lim, g)
    ensures !Keep(all + more, lim, g)
  {
    var fit := Fit(all, lim, |all|);
    FitSame(all, more, lim, g);
    FitPrefix(all, more, lim, |all|, |all + more|);
    var tail: seq<nat> :| Fit(all + more, lim, |all + more|) == fit + tail;
    CutOfPrefix(fit, tail, lim, |fit|);
    CutGrows(fit + tail, lim, |fit|, |fit + tail|);
  }

  // -------------------------------------------------------------- messages

  datatype Attachment = Attachment(mimeType: string, data: string)
  datatype Message = Message(role: string, content: string, attachments: seq<Attachment>)

  const LARGE_NOTE_HEAD := "[image omitted from this request: "
  const LARGE_NOTE_LIMIT := " bytes base64, over the model's limit of "
  const LARGE_NOTE_END := " per image]"
  const OLDER_NOTE := "[image omitted from this request: older images are dropped to stay within "
    + "the model's image limits; view it again if you still need it]"

  function Decimal(n: nat): string {
    (if n < 10 then "" else Decimal(n / 10)) + [('0' as int + n % 10) as char]
  }

  /** What stands in for an omitted image: it is too large on its own, or an older one. */
  datatype Note = Large(size: nat, cap: nat) | Older {
    function Text(): string {
      match this
      case Large(size, cap) => LARGE_NOTE_HEAD + Decimal(size) + LARGE_NOTE_LIMIT + Decimal(cap) + LARGE_NOTE_END
      case Older => OLDER_NOTE
    }
  }

  function NoteOn(size: nat, lim: Limits): Note {
    if lim.TooLarge(size) then Large(size, lim.PerImage()) else Older
  }

  type Notes = map<nat, Note>       // by the image's position among all

  function Sizes(atts: seq<Attachment>): (s: seq<nat>)
    ensures |s| == |atts|
  {
    seq(|atts|, j requires 0 <= j < |atts| => |atts[j].data|)
  }

  /** The sizes of the images of the first `i` messages. */
  function Flat(msgs: seq<Message>, i: nat): seq<nat>
    requires i <= |msgs|
  {
    if i == 0 then [] else Flat(msgs, i - 1) + Sizes(msgs[i - 1].attachments)
  }

  /** The first `j` attachments of a message, without those that have a note. */
  function KeptOf(atts: seq<Attachment>, off: nat, notes: Notes, j: nat): seq<Attachment>
    requires j <= |atts|
  {
    if j == 0 then [] else KeptOf(atts, off, notes, j - 1) + if off + j - 1 in notes then [] else [atts[j - 1]]
  }

  /** A text with one note more, on a line of its own. */
  function Noted(text: string, note: Note): string {
    (if text == "" then "" else text + "\n") + note.Text()
  }

  /** The message's text with the notes on its first `j` attachments. */
  function TextOf(content: string, off: nat, notes: Notes, j: nat): string {
    if j == 0 then content else
      var text := TextOf(content, off, notes, j - 1);
      if off + j - 1 in notes then Noted(text, notes[off + j - 1]) else text
  }

  predicate HasNote(off: nat, notes: Notes, j: nat) {
    exists g: nat :: off <= g < off + j && g in notes
  }

  function Rewrite(m: Message, off: nat, notes: Notes): Message {
    var n := |m.attachments|;
    if HasNote(off, notes, n)
    then m.(attachments := KeptOf(m.attachments, off, notes, n), content := TextOf(m.content, off, notes, n))
    else m
  }

  function RewriteAll(msgs: seq<Message>, notes: Notes, i: nat): (out: seq<Message>)
    requires i <= |msgs|
    ensures |out| == i
  {
    if i == 0 then [] else RewriteAll(msgs, notes, i - 1) + [Rewrite(msgs[i - 1], |Flat(msgs, i - 1)|, notes)]
  }

  function NotesOf(all: seq<nat>, lim: Limits): Notes {
    map g: nat | 0 <= g < |all| && !Keep(all, lim, g) :: NoteOn(all[g], lim)
  }

  /** The messages as they are sent. */
  function Fitted(msgs: seq<Message>, lim: Limits): (out: seq<Message>)
    ensures |out| == |msgs|
  {
    RewriteAll(msgs, NotesOf(Flat(msgs, |msgs|), lim), |msgs|)
  }

  lemma {:induction false} FlatPrefix(msgs: seq<Message>, i: nat, k: nat)
    requires i <= k <= |msgs|
    ensures |Flat(msgs, i)| <= |Flat(msgs, k)| && Flat(msgs, k)[..|Flat(msgs, i)|] == Flat(msgs, i)
    decreases k
  {
    if i < k { FlatPrefix(msgs, i, k - 1); }
  }

  lemma SizesAppend(a: seq<Attachment>, b: seq<Attachment>)
    ensures Sizes(a + b) == Sizes(a) + Sizes(b)
  {
  }

  /** The sizes without a note among the first `k`. */
  function Left(all: seq<nat>, notes: Notes, k: nat): seq<nat>
    requires k <= |all|
  {
    if k == 0 then [] else Left(all, notes, k - 1) + if k - 1 in notes then [] else [all[k - 1]]
  }

  lemma {:induction false} LeftIsKeptFrom(all: seq<nat>, lim: Limits, notes: Notes, c: nat, k: nat)
    requires k <= |all|
    requires forall g: nat {:trigger g in notes} :: g < |all| ==> (g in notes <==> Falls(all, lim, c, g))
    ensures Left(all, notes, k) == KeptFrom(all, lim, c, k)
  {
    if k > 0 { LeftIsKeptFrom(all, lim, notes, c, k - 1); }
  }

  lemma LeftIsKept(all: seq<nat>, lim: Limits, k: nat)
    requires k <= |all|
    ensures Left(all, NotesOf(all, lim), k) == Kept(all, lim, k)
  {
    LeftIsKeptFrom(all, lim, NotesOf(all, lim), CutOf(all, lim), k);
  }

  /** The images from `off` on are those of the attachments. */
  predicate Holds(all: seq<nat>, off: nat, atts: seq<Attachment>) {
    off + |atts| <= |all| && all[off..off + |atts|] == Sizes(atts)
  }

  lemma HoldsAt(all: seq<nat>, off: nat, atts: seq<Attachment>, j: nat)
    requires Holds(all, off, atts) && j < |atts|
    ensures all[off + j] == |atts[j].data|
  {
    assert all[off..off + |atts|][j] == Sizes(atts)[j];
  }

  lemma {:induction false} SizesOfLeft(all: seq<nat>, notes: Notes, atts: seq<Attachment>, off: nat, j: nat)
    requires Holds(all, off, atts) && j <= |atts|
    ensures Left(all, notes, off + j) == Left(all, notes, off) + Sizes(KeptOf(atts, off, notes, j))
  {
    if j == 0 {
      assert Sizes(KeptOf(atts, off, notes, 0)) == [];
    } else {
      SizesOfLeft(all, notes, atts, off, j - 1);
      SizesOfLeftStep(all, notes, atts, off, j - 1);
    }
  }

  lemma SizesOfLeftStep(all: seq<nat>, notes: Notes, atts: seq<Attachment>, off: nat, j: nat)
    requires Holds(all, off, atts) && j < |atts|
    requires Left(all, notes, off + j) == Left(all, notes, off) + Sizes(KeptOf(atts, off, notes, j))
    ensures Left(all, notes, off + j + 1) == Left(all, notes, off) + Sizes(KeptOf(atts, off, notes, j + 1))
  {
    var last := if off + j in notes then [] else [atts[j]];
    HoldsAt(all, off, atts, j);
    SizesAppend(KeptOf(atts, off, notes, j), last);
    Associative(Left(all, notes, off), Sizes(KeptOf(atts, off, notes, j)), Sizes(last));
    assert KeptOf(atts, off, notes, j + 1) == KeptOf(atts, off, notes, j) + last;
    assert Left(all, notes, off + j + 1) == Left(all, notes, off + j) + Sizes(last);
  }

  lemma {:induction false} NoNoteNoChange(atts: seq<Attachment>, off: nat, notes: Notes, j: nat)
    requires j <= |atts| && !HasNote(off, notes, |atts|)
    ensures KeptOf(atts, off, notes, j) == atts[..j]
  {
    if j > 0 {
      NoNoteNoChange(atts, off, notes, j - 1);
      assert off + (j - 1) !in notes;
    }
  }

  lemma AttachmentsOfRewrite(m: Message, off: nat, notes: Notes)
    ensures Rewrite(m, off, notes).attachments == KeptOf(m.attachments, off, notes, |m.attachments|)
  {
    if !HasNote(off, notes, |m.attachments|) {
      NoNoteNoChange(m.attachments, off, notes, |m.attachments|);
      assert m.attachments[..|m.attachments|] == m.attachments;
    }
  }

  lemma MessageHolds(msgs: seq<Message>, i: nat)
    requires i < |msgs|
    ensures |Flat(msgs, i + 1)| == |Flat(msgs, i)| + |msgs[i].attachments| <= |Flat(msgs, |msgs|)|
    ensures Holds(Flat(msgs, |msgs|), |Flat(msgs, i)|, msgs[i].attachments)
  {
    FlatPrefix(msgs, i + 1, |msgs|);
    var all, off, n := Flat(msgs, |msgs|), |Flat(msgs, i)|, |Flat(msgs, i + 1)|;
    assert all[off..n] == all[..n][off..] == Flat(msgs, i + 1)[off..] == Sizes(msgs[i].attachments);
  }

  lemma {:induction false} FlatOfRewritten(msgs: seq<Message>, notes: Notes, i: nat)
    requires i <= |msgs|
    ensures |Flat(msgs, i)| <= |Flat(msgs, |msgs|)|
    ensures Flat(RewriteAll(msgs, notes, |msgs|), i) == Left(Flat(msgs, |msgs|), notes, |Flat(msgs, i)|)
  {
    FlatPrefix(msgs, i, |msgs|);
    if i > 0 {
      FlatOfRewritten(msgs, notes, i - 1);
      FlatOfRewrittenStep(msgs, notes, i - 1);
    }
  }

  lemma FlatOfRewrittenStep(msgs: seq<Message>, notes: Notes, i: nat)
    requires i < |msgs| && |Flat(msgs, i)| <= |Flat(msgs, |msgs|)|
    requires Flat(RewriteAll(msgs, notes, |msgs|), i) == Left(Flat(msgs, |msgs|), notes, |Flat(msgs, i)|)
    ensures |Flat(msgs, i + 1)| <= |Flat(msgs, |msgs|)|
    ensures Flat(RewriteAll(msgs, notes, |msgs|), i + 1) == Left(Flat(msgs, |msgs|), notes, |Flat(msgs, i + 1)|)
  {
    var all, off, out := Flat(msgs, |msgs|), |Flat(msgs, i)|, RewriteAll(msgs, notes, |msgs|);
    LeftOfMessage(msgs, notes, i);
    RewriteAt(msgs, notes, |msgs|, i);
    AttachmentsOfRewrite(msgs[i], off, notes);
    assert Flat(out, i + 1) == Flat(out, i) + Sizes(out[i].attachments);
  }

  lemma LeftOfMessage(msgs: seq<Message>, notes: Notes, i: nat)
    requires i < |msgs| && |Flat(msgs, i)| <= |Flat(msgs, |msgs|)|
    ensures |Flat(msgs, i + 1)| <= |Flat(msgs, |msgs|)|
    ensures Left(Flat(msgs, |msgs|), notes, |Flat(msgs, i + 1)|)
         == Left(Flat(msgs, |msgs|), notes, |Flat(msgs, i)|)
          + Sizes(KeptOf(msgs[i].attachments, |Flat(msgs, i)|, notes, |msgs[i].attachments|))
  {
    MessageHolds(msgs, i);
    SizesOfLeft(Flat(msgs, |msgs|), notes, msgs[i].attachments, |Flat(msgs, i)|, |msgs[i].attachments|);
  }

  /** The images of the messages sent are the kept images. */
  lemma FlatOfFitted(msgs: seq<Message>, lim: Limits)
    ensures Flat(Fitted(msgs, lim), |msgs|) == Kept(Flat(msgs, |msgs|), lim, |Flat(msgs, |msgs|)|)
  {
    var all := Flat(msgs, |msgs|);
    FlatOfRewritten(msgs, NotesOf(all, lim), |msgs|);
    LeftIsKept(all, lim, |all|);
  }

  lemma {:induction false} RewriteAt(msgs: seq<Message>, notes: Notes, n: nat, i: nat)
    requires i < n <= |msgs|
    ensures RewriteAll(msgs, notes, n)[i] == Rewrite(msgs[i], |Flat(msgs, i)|, notes)
  {
    if i < n - 1 { RewriteAt(msgs, notes, n - 1, i); }
  }

  // --------------------------------------------------------- main results

  /** What is sent is the newest of what could be sent at all, and something if anything
      could. */
  lemma FittedIsNewest(msgs: seq<Message>, lim: Limits)
    ensures var sent, fit := Flat(Fitted(msgs, lim), |msgs|), Fit(Flat(msgs, |msgs|), lim, |Flat(msgs, |msgs|)|);
            |sent| <= |fit| && sent == fit[|fit| - |sent|..] && (fit != [] ==> sent != [])
  {
    var all := Flat(msgs, |msgs|);
    FlatOfFitted(msgs, lim);
    KeptIsNewest(all, lim, |all|);
  }

  /** What is sent meets every cap. */
  lemma FittedIsWithin(msgs: seq<Message>, lim: Limits)
    requires lim.Sane()
    ensures Within(Flat(Fitted(msgs, lim), |msgs|), lim)
  {
    FlatOfFitted(msgs, lim);
    KeptIsWithin(Flat(msgs, |msgs|), lim);
  }

  /** Fitting what was fitted changes nothing. */
  lemma FittedTwice(msgs: seq<Message>, lim: Limits)
    ensures Fitted(Fitted(msgs, lim), lim) == Fitted(msgs, lim)
  {
    var out := Fitted(msgs, lim);
    var sent := Flat(out, |out|);
    FlatOfFitted(msgs, lim);
    KeptIsSettled(Flat(msgs, |msgs|), lim);
    forall g | 0 <= g < |sent| ensures Keep(sent, lim, g) { SettledIsKept(sent, lim, g); }
    assert NotesOf(sent, lim) == map[];
    forall i | 0 <= i < |out| ensures Fitted(out, lim)[i] == out[i] { RewriteAt(out, map[], |out|, i); }
  }

  lemma {:induction false} FlatAppend(msgs: seq<Message>, more: seq<Message>, i: nat)
    requires i <= |msgs|
    ensures Flat(msgs + more, i) == Flat(msgs, i)
  {
    if i > 0 { FlatAppend(msgs, more, i - 1); }
  }

  lemma FlatSplit(msgs: seq<Message>, more: seq<Message>) returns (tail: seq<nat>)
    ensures Flat(msgs + more, |msgs + more|) == Flat(msgs, |msgs|) + tail
  {
    var all, later := Flat(msgs, |msgs|), Flat(msgs + more, |msgs + more|);
    FlatAppend(msgs, more, |msgs|);
    FlatPrefix(msgs + more, |msgs|, |msgs + more|);
    tail := later[|all|..];
    assert later == later[..|all|] + tail;
  }

  lemma NotesGrow(all: seq<nat>, tail: seq<nat>, lim: Limits)
    ensures NotesOf(all, lim).Keys <= NotesOf(all + tail, lim).Keys
  {
    forall g: nat | g < |all| && !Keep(all, lim, g)
      ensures !Keep(all + tail, lim, g)
    {
      OmittedStaysOmitted(all, tail, lim, g);
    }
  }

  /** Appending messages never brings an omitted image back. */
  lemma OmissionIsPermanent(msgs: seq<Message>, more: seq<Message>, lim: Limits)
    ensures NotesOf(Flat(msgs, |msgs|), lim).Keys <= NotesOf(Flat(msgs + more, |msgs + more|), lim).Keys
  {
    var tail := FlatSplit(msgs, more);
    NotesGrow(Flat(msgs, |msgs|), tail, lim);
  }

  /** The old window and everything newer meet the caps together. */
  predicate RoomFor(msgs: seq<Message>, more: seq<Message>, lim: Limits) {
    var all, later := Flat(msgs, |msgs|), Flat(msgs + more, |msgs + more|);
    var fit := Fit(later, lim, |later|);
    CutOf(all, lim) <= |fit| && !Over(fit, lim, CutOf(all, lim), |fit|)
  }

  /** While there is room, a longer request begins with the shorter one, so its prompt cache
      stays usable. */
  lemma SharedPrefix(msgs: seq<Message>, more: seq<Message>, lim: Limits)
    requires RoomFor(msgs, more, lim)
    ensures Fitted(msgs + more, lim)[..|msgs|] == Fitted(msgs, lim)
  {
    var all, later := Flat(msgs, |msgs|), Flat(msgs + more, |msgs + more|);
    var tail := FlatSplit(msgs, more);
    SameCut(all, tail, lim);
    SameNotes(all, tail, lim);
    var now, was := NotesOf(later, lim), NotesOf(all, lim);
    SameRewrites(msgs, more, now, was, |msgs|);
    RewritePrefix(msgs + more, now, |msgs|, |msgs + more|);
  }

  lemma {:induction false} SameRewrites(msgs: seq<Message>, more: seq<Message>, now: Notes, was: Notes, i: nat)
    requires i <= |msgs| && Agree(now, was, 0, |Flat(msgs, |msgs|)|)
    ensures RewriteAll(msgs + more, now, i) == RewriteAll(msgs, was, i)
  {
    if i > 0 {
      SameRewrites(msgs, more, now, was, i - 1);
      FlatAppend(msgs, more, i - 1);
      FlatPrefix(msgs, i, |msgs|);
      SameRewrite(msgs[i - 1], |Flat(msgs, i - 1)|, now, was);
    }
  }

  lemma {:induction false} RewritePrefix(msgs: seq<Message>, notes: Notes, i: nat, n: nat)
    requires i <= n <= |msgs|
    ensures RewriteAll(msgs, notes, n)[..i] == RewriteAll(msgs, notes, i)
    decreases n
  {
    if i < n { RewritePrefix(msgs, notes, i, n - 1); }
  }

  lemma SameNotes(all: seq<nat>, tail: seq<nat>, lim: Limits)
    requires CutOf(all + tail, lim) == CutOf(all, lim)
    ensures Agree(NotesOf(all + tail, lim), NotesOf(all, lim), 0, |all|)
  {
    forall g: nat | 0 <= g < |all| ensures Keep(all + tail, lim, g) == Keep(all, lim, g) { FitSame(all, tail, lim, g); }
  }

  lemma SameCut(all: seq<nat>, tail: seq<nat>, lim: Limits)
    requires var fit, c := Fit(all + tail, lim, |all + tail|), CutOf(all, lim);
             c <= |fit| && !Over(fit, lim, c, |fit|)
    ensures CutOf(all + tail, lim) == CutOf(all, lim)
  {
    var fit := Fit(all, lim, |all|);
    FitPrefix(all, tail, lim, |all|, |all + tail|);
    var rest: seq<nat> :| Fit(all + tail, lim, |all + tail|) == fit + rest;
    CutOfPrefix(fit, rest, lim, |fit|);
    CutStays(fit + rest, lim, |fit|, |fit + rest|);
  }

  /** The notes agree from `lo` up to `hi`. */
  predicate Agree(now: Notes, was: Notes, lo: nat, hi: nat) {
    forall g: nat :: lo <= g < hi ==> (g in now <==> g in was) && (g in now ==> now[g] == was[g])
  }

  lemma SameRewrite(m: Message, off: nat, now: Notes, was: Notes)
    requires Agree(now, was, off, off + |m.attachments|)
    ensures Rewrite(m, off, now) == Rewrite(m, off, was)
  {
    SameKept(m, off, now, was, |m.attachments|);
  }

  lemma {:induction false} SameKept(m: Message, off: nat, now: Notes, was: Notes, j: nat)
    requires j <= |m.attachments| && Agree(now, was, off, off + |m.attachments|)
    ensures KeptOf(m.attachments, off, now, j) == KeptOf(m.attachments, off, was, j)
    ensures TextOf(m.content, off, now, j) == TextOf(m.content, off, was, j)
  {
    if j > 0 { SameKept(m, off, now, was, j - 1); }
  }

  // ------------------------------------------------------------ the two loops

  /** The notes once `g` images were seen and the cut stands at `c`. */
  function NotesAt(all: seq<nat>, lim: Limits, g: nat, c: nat): Notes
    requires g <= |all|
  {
    if g == 0 then
      map[]
    else
      var notes := NotesAt(all, lim, g - 1, c);
      if Falls(all, lim, c, g - 1) then notes[g - 1 := NoteOn(all[g - 1], lim)] else notes
  }

  lemma {:induction false} NotesAtHas(all: seq<nat>, lim: Limits, g: nat, c: nat, x: nat)
    requires g <= |all|
    ensures x in NotesAt(all, lim, g, c) <==> x < g && Falls(all, lim, c, x)
  {
    if g > 0 { NotesAtHas(all, lim, g - 1, c, x); }
  }

  lemma {:induction false} NotesAtSays(all: seq<nat>, lim: Limits, g: nat, c: nat, x: nat)
    requires g <= |all| && x in NotesAt(all, lim, g, c)
    ensures x < |all| && NotesAt(all, lim, g, c)[x] == NoteOn(all[x], lim)
  {
    NotesAtHas(all, lim, g, c, x);
    if x < g - 1 { NotesAtSays(all, lim, g - 1, c, x); }
  }

  /** The window holds the positions of the fitting images from the cut on. */
  ghost predicate WindowAt(all: seq<nat>, lim: Limits, g: nat, c: nat, window: seq<nat>)
    requires g <= |all|
  {
    && |window| + c == |Fit(all, lim, g)|
    && forall p ::
      0 <= p < |window| ==> window[p] < g && !lim.TooLarge(all[window[p]]) && |Fit(all, lim, window[p])| == c + p
  }

  lemma {:induction false} RankGrows(all: seq<nat>, lim: Limits, x: nat, y: nat)
    requires x < y <= |all| && !lim.TooLarge(all[x])
    ensures |Fit(all, lim, x)| < |Fit(all, lim, y)|
    decreases y
  {
    if x < y - 1 { RankGrows(all, lim, x, y - 1); }
  }

  /** A cut after all the images leaves none to fall. */
  lemma {:induction false} NotesEnd(all: seq<nat>, lim: Limits, g: nat, c: nat)
    requires g <= |all| && |Fit(all, lim, g)| <= c
    ensures NotesAt(all, lim, g, c) == NotesAt(all, lim, g, c + 1)
  {
    if g > 0 { NotesEnd(all, lim, g - 1, c); }
  }

  /** One more image falls to the cut: the fitting one of that rank. */
  lemma {:induction false} NotesDrop(all: seq<nat>, lim: Limits, g: nat, c: nat, x: nat)
    requires x < g <= |all| && !lim.TooLarge(all[x]) && |Fit(all, lim, x)| == c
    ensures NotesAt(all, lim, g, c)[x := Older] == NotesAt(all, lim, g, c + 1)
  {
    if x == g - 1 {
      NotesEnd(all, lim, x, c);
    } else {
      RankGrows(all, lim, x, g - 1);
      NotesDrop(all, lim, g - 1, c, x);
    }
  }

  /** Dropping the oldest of the window moves the cut by one. */
  lemma DropOldest(all: seq<nat>, lim: Limits, g: nat, c: nat, window: seq<nat>)
    requires g <= |all| && WindowAt(all, lim, g, c, window) && window != []
    ensures WindowAt(all, lim, g, c + 1, window[1..])
    ensures NotesAt(all, lim, g, c)[window[0] := Older] == NotesAt(all, lim, g, c + 1)
  {
    NotesDrop(all, lim, g, c, window[0]);
    assert forall p :: 0 <= p < |window[1..]| ==> window[1..][p] == window[p + 1];
  }

  /** The window and its bytes belong to a cut at `c` after `g` images. */
  ghost predicate Standing(all: seq<nat>, lim: Limits, g: nat, c: nat, window: seq<nat>, total: nat) {
    && g <= |all| && c <= |Fit(all, lim, g)|
    && WindowAt(all, lim, g, c, window)
    && total == Bytes(Fit(all, lim, g), |Fit(all, lim, g)|) - Bytes(Fit(all, lim, g), c)
  }

  function CutAfter(all: seq<nat>, lim: Limits, g: nat): nat
    requires g <= |all|
  {
    Cut(Fit(all, lim, g), lim, |Fit(all, lim, g)|)
  }

  /** The notes once `g` images were seen. */
  function NotesAfter(all: seq<nat>, lim: Limits, g: nat): Notes
    requires g <= |all|
  {
    NotesAt(all, lim, g, CutAfter(all, lim, g))
  }

  /** The window and its bytes belong to the cut after `g` images. */
  ghost predicate Seen(all: seq<nat>, lim: Limits, g: nat, window: seq<nat>, total: nat) {
    g <= |all| && Standing(all, lim, g, CutAfter(all, lim, g), window, total)
  }

  lemma SkipLarge(all: seq<nat>, lim: Limits, g: nat, c: nat, window: seq<nat>, total: nat)
    requires g < |all| && Standing(all, lim, g, c, window, total) && lim.TooLarge(all[g])
    ensures Standing(all, lim, g + 1, c, window, total)
    ensures NotesAt(all, lim, g + 1, c) == NotesAt(all, lim, g, c)[g := NoteOn(all[g], lim)]
  {
    assert Fit(all, lim, g + 1) == Fit(all, lim, g);
  }

  lemma NotesWait(all: seq<nat>, lim: Limits, g: nat, c: nat)
    requires g < |all| && !lim.TooLarge(all[g]) && c <= |Fit(all, lim, g)|
    ensures NotesAt(all, lim, g + 1, c) == NotesAt(all, lim, g, c)
  {
  }

  lemma WindowGrows(all: seq<nat>, lim: Limits, g: nat, c: nat, window: seq<nat>)
    requires g < |all| && !lim.TooLarge(all[g]) && WindowAt(all, lim, g, c, window)
    ensures WindowAt(all, lim, g + 1, c, window + [g])
  {
  }

  lemma Admit(all: seq<nat>, lim: Limits, g: nat, c: nat, window: seq<nat>, total: nat)
    requires g < |all| && Standing(all, lim, g, c, window, total) && !lim.TooLarge(all[g])
    ensures Standing(all, lim, g + 1, c, window + [g], total + all[g])
    ensures NotesAt(all, lim, g + 1, c) == NotesAt(all, lim, g, c)
  {
    var before := Fit(all, lim, g);
    BytesOfPrefix(before, [all[g]], |before|);
    BytesOfPrefix(before, [all[g]], c);
    NotesWait(all, lim, g, c);
    WindowGrows(all, lim, g, c, window);
  }

  lemma CutStep(all: seq<nat>, lim: Limits, g: nat)
    requires g < |all|
    ensures var c, fit := CutAfter(all, lim, g), Fit(all, lim, g + 1);
            CutAfter(all, lim, g + 1) == if lim.TooLarge(all[g]) || !Over(fit, lim, c, |fit|) then c
              else Trim(fit, lim, c, |fit|)
  {
    if lim.TooLarge(all[g]) {
      assert Fit(all, lim, g + 1) == Fit(all, lim, g);
    } else {
      CutOfPrefix(Fit(all, lim, g), [all[g]], lim, |Fit(all, lim, g)|);
    }
  }

  lemma DropStep(all: seq<nat>, lim: Limits, g: nat, c: nat, window: seq<nat>, total: nat)
    requires Standing(all, lim, g, c, window, total) && window != []
    ensures all[window[0]] <= total
    ensures Standing(all, lim, g, c + 1, window[1..], total - all[window[0]])
    ensures NotesAt(all, lim, g, c)[window[0] := Older] == NotesAt(all, lim, g, c + 1)
  {
    DropOldest(all, lim, g, c, window);
    FitAtRank(all, lim, g, window[0]);
    BytesGrow(Fit(all, lim, g), c + 1, |Fit(all, lim, g)|);
  }

  method TrimWindow(all: seq<nat>, lim: Limits, ghost g: nat, ghost c0: nat, window0: seq<nat>, total0: nat,
          notes0: Notes)
    returns (window: seq<nat>, total: nat, notes: Notes)
    requires Standing(all, lim, g, c0, window0, total0) && notes0 == NotesAt(all, lim, g, c0)
    ensures var c := Trim(Fit(all, lim, g), lim, c0, |Fit(all, lim, g)|);
            Standing(all, lim, g, c, window, total) && notes == NotesAt(all, lim, g, c)
  {
    window, total, notes := window0, total0, notes0;
    ghost var c, fit := c0, Fit(all, lim, g);
    while |window| > 1 && lim.OverLowWater(|window|, total)
      invariant Standing(all, lim, g, c, window, total) && notes == NotesAt(all, lim, g, c)
      invariant Trim(fit, lim, c, |fit|) == Trim(fit, lim, c0, |fit|)
    {
      DropStep(all, lim, g, c, window, total);
      total := total - all[window[0]];
      notes := notes[window[0] := Older];
      window, c := window[1..], c + 1;
    }
  }

  /** One image of the walk. */
  method See(all: seq<nat>, lim: Limits, g: nat, window0: seq<nat>, total0: nat, notes0: Notes)
    returns (window: seq<nat>, total: nat, notes: Notes)
    requires g < |all| && Seen(all, lim, g, window0, total0) && notes0 == NotesAfter(all, lim, g)
    ensures Seen(all, lim, g + 1, window, total) && notes == NotesAfter(all, lim, g + 1)
  {
    CutStep(all, lim, g);
    if lim.TooLarge(all[g]) {
      SkipLarge(all, lim, g, CutAfter(all, lim, g), window0, total0);
      return window0, total0, notes0[g := NoteOn(all[g], lim)];
    }
    Admit(all, lim, g, CutAfter(all, lim, g), window0, total0);
    window, total, notes := window0 + [g], total0 + all[g], notes0;
    if lim.Over(|window|, total) {
      window, total, notes := TrimWindow(all, lim, g + 1, CutAfter(all, lim, g), window, total, notes);
    }
  }

  lemma {:induction false} FitAtRank(all: seq<nat>, lim: Limits, g: nat, x: nat)
    requires x < g <= |all| && !lim.TooLarge(all[x])
    ensures |Fit(all, lim, x)| < |Fit(all, lim, g)| && Fit(all, lim, g)[|Fit(all, lim, x)|] == all[x]
  {
    if x < g - 1 { FitAtRank(all, lim, g - 1, x); }
  }

  /** The images of one message. */
  method SeeMessage(all: seq<nat>, lim: Limits, g0: nat, n: nat, window0: seq<nat>, total0: nat, notes0: Notes)
    returns (window: seq<nat>, total: nat, notes: Notes)
    requires g0 + n <= |all| && Seen(all, lim, g0, window0, total0) && notes0 == NotesAfter(all, lim, g0)
    ensures Seen(all, lim, g0 + n, window, total) && notes == NotesAfter(all, lim, g0 + n)
  {
    window, total, notes := window0, total0, notes0;
    var g := g0;
    while g < g0 + n
      invariant g0 <= g <= g0 + n
      invariant Seen(all, lim, g, window, total)
      invariant notes == NotesAfter(all, lim, g)
    {
      window, total, notes := See(all, lim, g, window, total, notes);
      g := g + 1;
    }
  }

  /** How many images the first `i` messages have. */
  function Offset(msgs: seq<Message>, i: nat): nat
    requires i <= |msgs|
  {
    if i == 0 then 0 else Offset(msgs, i - 1) + |msgs[i - 1].attachments|
  }

  lemma {:induction false} OffsetIsLength(msgs: seq<Message>, i: nat)
    requires i <= |msgs|
    ensures |Flat(msgs, i)| == Offset(msgs, i)
  {
    if i > 0 { OffsetIsLength(msgs, i - 1); }
  }

  lemma {:induction false} OffsetGrows(msgs: seq<Message>, i: nat, k: nat)
    requires i <= k <= |msgs|
    ensures Offset(msgs, i) <= Offset(msgs, k)
    decreases k
  {
    if i < k { OffsetGrows(msgs, i, k - 1); }
  }

  /** Walk the history oldest to newest, as it grew. */
  method Walk(msgs: seq<Message>, lim: Limits, all: seq<nat>) returns (notes: Notes)
    requires |all| == Offset(msgs, |msgs|)
    ensures notes == NotesAfter(all, lim, |all|)
  {
    notes := map[];
    var window: seq<nat>, total, g := [], 0, 0;
    NothingSeen(all, lim);
    var i := 0;
    while i < |msgs|
      invariant 0 <= i <= |msgs| && g == Offset(msgs, i) <= |all|
      invariant Seen(all, lim, g, window, total) && notes == NotesAfter(all, lim, g)
    {
      OffsetGrows(msgs, i + 1, |msgs|);
      var n := |msgs[i].attachments|;
      window, total, notes := SeeMessage(all, lim, g, n, window, total, notes);
      i, g := i + 1, g + n;
    }
  }

  lemma NothingSeen(all: seq<nat>, lim: Limits)
    ensures Seen(all, lim, 0, [], 0) && NotesAfter(all, lim, 0) == map[]
  {
  }

  lemma AllSeen(all: seq<nat>, lim: Limits)
    ensures NotesAfter(all, lim, |all|) == NotesOf(all, lim)
  {
    var c := CutAfter(all, lim, |all|);
    forall x: nat ensures x in NotesAt(all, lim, |all|, c) <==> x in NotesOf(all, lim) {
      NotesAtHas(all, lim, |all|, c, x);
    }
    forall x | x in NotesAt(all, lim, |all|, c)
      ensures NotesAt(all, lim, |all|, c)[x] == NotesOf(all, lim)[x]
    {
      NotesAtSays(all, lim, |all|, c, x);
    }
  }

  /** `FitImages`: choose what stays, then rewrite the messages that lose an image. */
  method FitImages(msgs: seq<Message>, lim: Limits) returns (out: seq<Message>, omitted: nat)
    ensures out == Fitted(msgs, lim)
    ensures omitted == |NotesOf(Flat(msgs, |msgs|), lim)|
  {
    OffsetIsLength(msgs, |msgs|);
    var notes := Walk(msgs, lim, Flat(msgs, |msgs|));
    AllSeen(Flat(msgs, |msgs|), lim);
    if |notes| == 0 {
      assert notes == map[];
      Untouched(msgs, |msgs|);
      return msgs, 0;
    }
    out := WriteNotes(msgs, notes);
    omitted := |notes|;
  }

  lemma {:induction false} Untouched(msgs: seq<Message>, i: nat)
    requires i <= |msgs|
    ensures RewriteAll(msgs, map[], i) == msgs[..i]
  {
    if i > 0 { Untouched(msgs, i - 1); }
  }

  /** One note more on the text of a message. */
  method AddNote(text0: string, note: Note) returns (text: string)
    ensures text == Noted(text0, note)
  {
    text := text0;
    if text != "" { text := text + "\n"; }
    text := text + note.Text();
  }

  lemma OneMoreImage(m: Message, g: nat, notes: Notes, j: nat)
    requires j < |m.attachments|
    ensures HasNote(g, notes, j + 1) <==> HasNote(g, notes, j) || g + j in notes
    ensures var kept := KeptOf(m.attachments, g, notes, j);
            KeptOf(m.attachments, g, notes, j + 1) == if g + j in notes then kept else kept + [m.attachments[j]]
    ensures var text := TextOf(m.content, g, notes, j);
            TextOf(m.content, g, notes, j + 1) == if g + j in notes then Noted(text, notes[g + j]) else text
  {
  }

  /** The inner loop: what is sent of one message, the first of whose images is at `g`. */
  method RewriteMessage(m0: Message, g: nat, notes: Notes) returns (m: Message)
    ensures m == Rewrite(m0, g, notes)
  {
    m := m0;
    var kept: seq<Attachment>, text, omitted, j := [], m.content, false, 0;
    while j < |m.attachments|
      invariant 0 <= j <= |m.attachments| && omitted == HasNote(g, notes, j)
      invariant kept == KeptOf(m.attachments, g, notes, j) && text == TextOf(m.content, g, notes, j)
    {
      OneMoreImage(m, g, notes, j);
      if g + j !in notes {
        kept := kept + [m.attachments[j]];
      } else {
        text := AddNote(text, notes[g + j]);
        omitted := true;
      }
      j := j + 1;
    }
    if omitted { m := m.(attachments := kept, content := text); }
  }

  method WriteNotes(msgs: seq<Message>, notes: Notes) returns (out: seq<Message>)
    ensures out == RewriteAll(msgs, notes, |msgs|)
  {
    out := [];
    var i, g := 0, 0;
    while i < |msgs|
      invariant 0 <= i <= |msgs| && g == |Flat(msgs, i)| && out == RewriteAll(msgs, notes, i)
    {
      var m := RewriteMessage(msgs[i], g, notes);
      out := out + [m];
      g := g + |msgs[i].attachments|;
      i := i + 1;
    }
  }
}
