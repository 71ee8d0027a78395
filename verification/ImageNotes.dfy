/** What a message looks like once its omitted images are replaced: which attachments stay,
    what stands in for the others, and that nothing else of it is lost. */
module ImageNotes {
  import opened Text
  import opened Images

  // --------------------------------------------------------------- the note

  /** An image is noted with its size and the limit exactly if it breaks a limit of its own:
      the one given for each image, or the total, which no single image may exceed either unless
      the per-image limit is negative.  Such an image is always omitted. */
  lemma NoteSays(all: seq<nat>, lim: Limits, g: nat)
    requires g < |all|
    ensures var size, notes := all[g], NotesOf(all, lim);
            var overImage := 0 < lim.maxImageBytes < size;
            var overTotal := lim.maxImageBytes >= 0 && 0 < lim.maxTotalBytes < size;
            && (overImage || overTotal ==> g in notes)
            && (g in notes ==>
                  notes[g] == if overImage && overTotal then Large(size, Min(lim.maxImageBytes, lim.maxTotalBytes))
                              else if overImage then Large(size, lim.maxImageBytes)
                              else if overTotal then Large(size, lim.maxTotalBytes)
                              else Older)
  {
  }

  function Min(a: nat, b: nat): nat {
    if a < b then a else b
  }

  /** Of the images that break no limit of their own, the oldest are omitted. */
  lemma OldestFirst(all: seq<nat>, lim: Limits, x: nat, y: nat)
    requires x < y < |all| && !lim.TooLarge(all[x]) && y in NotesOf(all, lim) && NotesOf(all, lim)[y] == Older
    ensures x in NotesOf(all, lim)
  {
    RankGrows(all, lim, x, y);
  }

  /** The notes as they read. */
  lemma NoteTexts(size: nat, cap: nat)
    ensures Large(size, cap).Text() ==
            LARGE_NOTE_HEAD + Decimal(size) + LARGE_NOTE_LIMIT + Decimal(cap) + LARGE_NOTE_END
    ensures Older.Text() == OLDER_NOTE
  {
  }

  /** A number is written in decimal digits that read back as the number. */
  function Value(digits: string): int {
    if digits == "" then 0
    else 10 * Value(digits[..|digits| - 1]) + (digits[|digits| - 1] as int - '0' as int)
  }

  lemma ValueSnoc(digits: string, d: nat)
    requires d < 10
    ensures Value(digits + [('0' as int + d) as char]) == 10 * Value(digits) + d
  {
    assert (digits + [('0' as int + d) as char])[..|digits|] == digits;
  }

  lemma {:induction false} DecimalReadsBack(n: nat)
    ensures Value(Decimal(n)) == n
  {
    if n < 10 {
      ValueSnoc("", n);
      assert "" + [('0' as int + n) as char] == Decimal(n);
    } else {
      DecimalReadsBack(n / 10);
      ValueSnoc(Decimal(n / 10), n % 10);
    }
  }

  // --------------------------------------------------------------- the text

  /** The parts, one on each line. */
  function Lines(parts: seq<string>): string {
    if parts == [] then ""
    else if |parts| == 1 then parts[0]
    else Lines(parts[..|parts| - 1]) + "\n" + parts[|parts| - 1]
  }

  /** The notes on the images at `off .. off + j`, in order. */
  function NotesIn(off: nat, notes: Notes, j: nat): seq<Note> {
    if j == 0 then []
    else NotesIn(off, notes, j - 1) + if off + j - 1 in notes then [notes[off + j - 1]] else []
  }

  function Texts(ns: seq<Note>): seq<string> {
    if ns == [] then [] else Texts(ns[..|ns| - 1]) + [ns[|ns| - 1].Text()]
  }

  /** They are the notes of those images, first to last, each once. */
  lemma {:induction false} NotesInAt(off: nat, notes: Notes, j: nat) returns (at: seq<nat>)
    ensures |at| == |NotesIn(off, notes, j)|
    ensures forall k :: 0 <= k < |at| ==> at[k] in notes && NotesIn(off, notes, j)[k] == notes[at[k]]
    ensures forall i, k :: 0 <= i < k < |at| ==> at[i] < at[k]
    ensures forall k :: 0 <= k < |at| ==> off <= at[k] < off + j
    ensures forall g: nat :: off <= g < off + j && g in notes ==> g in at
  {
    at := [];
    if j > 0 {
      at := NotesInAt(off, notes, j - 1);
      if off + j - 1 in notes { at := at + [off + j - 1]; }
    }
  }

  predicate NoBlank(parts: seq<string>) {
    forall i :: 0 <= i < |parts| ==> parts[i] != ""
  }

  lemma TextIsNotBlank(note: Note)
    ensures note.Text() != ""
  {
    assert |OLDER_NOTE| > 0 && |LARGE_NOTE_HEAD| > 0;
  }

  lemma {:induction false} TextsNotBlank(ns: seq<Note>)
    ensures NoBlank(Texts(ns))
  {
    if ns != [] {
      TextsNotBlank(ns[..|ns| - 1]);
      TextIsNotBlank(ns[|ns| - 1]);
    }
  }

  /** A part more is a line more, below the others. */
  lemma LinesMore(parts: seq<string>, part: string)
    requires NoBlank(parts)
    ensures Lines(parts + [part]) == (if Lines(parts) == "" then "" else Lines(parts) + "\n") + part
  {
    assert (parts + [part])[..|parts|] == parts;
    if parts != [] {
      assert Lines(parts) != "";
    } else {
      assert "" + part == part;
    }
  }

  function Own(content: string): seq<string> {
    if content == "" then [] else [content]
  }

  /** The lines of a message: its own text, and below it the notes. */
  function LinesOf(content: string, ns: seq<Note>): seq<string> {
    Own(content) + Texts(ns)
  }

  lemma NotedIsLine(content: string, ns: seq<Note>)
    requires ns != []
    ensures Lines(LinesOf(content, ns)) == Noted(Lines(LinesOf(content, ns[..|ns| - 1])), ns[|ns| - 1])
  {
    var init, note := ns[..|ns| - 1], ns[|ns| - 1];
    TextsNotBlank(init);
    Associative(Own(content), Texts(init), [note.Text()]);
    LinesMore(LinesOf(content, init), note.Text());
  }

  lemma OwnLines(content: string)
    ensures Lines(LinesOf(content, [])) == content
  {
    assert LinesOf(content, []) == Own(content);
  }

  /** The text with these notes added one by one. */
  function WithNotes(content: string, ns: seq<Note>): string {
    if ns == [] then content else Noted(WithNotes(content, ns[..|ns| - 1]), ns[|ns| - 1])
  }

  lemma {:induction false} TextWithNotes(content: string, off: nat, notes: Notes, j: nat)
    ensures TextOf(content, off, notes, j) == WithNotes(content, NotesIn(off, notes, j))
  {
    if j > 0 {
      TextWithNotes(content, off, notes, j - 1);
      if off + j - 1 in notes {
        assert NotesIn(off, notes, j)[..|NotesIn(off, notes, j - 1)|] == NotesIn(off, notes, j - 1);
      } else {
        assert NotesIn(off, notes, j) == NotesIn(off, notes, j - 1);
      }
    }
  }

  lemma {:induction false} WithNotesIsLines(content: string, ns: seq<Note>)
    ensures WithNotes(content, ns) == Lines(LinesOf(content, ns))
  {
    if ns == [] {
      OwnLines(content);
    } else {
      WithNotesIsLines(content, ns[..|ns| - 1]);
      NotedIsLine(content, ns);
    }
  }

  /** The message keeps its own text, and every omitted image adds its note on a line below,
      in the order of the images. */
  lemma TextIsLines(content: string, off: nat, notes: Notes, j: nat)
    ensures TextOf(content, off, notes, j) == Lines(LinesOf(content, NotesIn(off, notes, j)))
  {
    TextWithNotes(content, off, notes, j);
    WithNotesIsLines(content, NotesIn(off, notes, j));
  }

  // --------------------------------------------------------- the attachments

  /** What stays of a message's attachments: those without a note, in their order. */
  lemma {:induction false} KeptAt(atts: seq<Attachment>, off: nat, notes: Notes, j: nat) returns (at: seq<nat>)
    requires j <= |atts|
    ensures Stays(atts, off, notes, j, KeptOf(atts, off, notes, j), at)
  {
    at := [];
    if j > 0 {
      var n := j - 1;
      var before := KeptAt(atts, off, notes, n);
      KeptMore(atts, off, notes, n, before);
      at := if off + n in notes then before else before + [n];
    }
  }

  /** `at` are the positions, from first to last, of those of the first `j` attachments that have
      no note, and `kept` are they. */
  ghost predicate Stays(atts: seq<Attachment>, off: nat, notes: Notes, j: nat, kept: seq<Attachment>, at: seq<nat>)
    requires j <= |atts|
  {
    && |at| == |kept| && (forall k :: 0 <= k < |at| ==> at[k] < j && kept[k] == atts[at[k]])
    && (forall i, k :: 0 <= i < k < |at| ==> at[i] < at[k])
    && (forall i :: 0 <= i < j ==> (i in at <==> off + i !in notes))
  }

  lemma KeptMore(atts: seq<Attachment>, off: nat, notes: Notes, j: nat, at: seq<nat>)
    requires j < |atts| && Stays(atts, off, notes, j, KeptOf(atts, off, notes, j), at)
    ensures Stays(atts, off, notes, j + 1, KeptOf(atts, off, notes, j + 1),
                if off + j in notes then at else at + [j])
  {
    StaysMore(atts, off, notes, j, KeptOf(atts, off, notes, j), at);
    if off + j in notes { assert KeptOf(atts, off, notes, j + 1) == KeptOf(atts, off, notes, j); }
  }

  lemma StaysMore(atts: seq<Attachment>, off: nat, notes: Notes, j: nat, kept: seq<Attachment>, at: seq<nat>)
    requires j < |atts| && Stays(atts, off, notes, j, kept, at)
    ensures if off + j in notes then Stays(atts, off, notes, j + 1, kept, at)
            else Stays(atts, off, notes, j + 1, kept + [atts[j]], at + [j])
  {
    assert forall k :: 0 <= k < |at| ==> at[k] < j;
  }

  /** A whole message as it is sent: its role, its attachments without a note, and its text
      with the notes below, if there are any. */
  lemma SentMessage(msgs: seq<Message>, lim: Limits, i: nat) returns (at: seq<nat>)
    requires i < |msgs|
    ensures var m, sent := msgs[i], Fitted(msgs, lim)[i];
            var off, notes, n := |Flat(msgs, i)|, NotesOf(Flat(msgs, |msgs|), lim), |msgs[i].attachments|;
            && sent.role == m.role
            && sent.content == Lines(LinesOf(m.content, NotesIn(off, notes, n)))
            && Stays(m.attachments, off, notes, n, sent.attachments, at)
  {
    var m := msgs[i];
    var off, notes, n := |Flat(msgs, i)|, NotesOf(Flat(msgs, |msgs|), lim), |msgs[i].attachments|;
    RewriteAt(msgs, notes, |msgs|, i);
    at := KeptAt(m.attachments, off, notes, n);
    TextIsLines(m.content, off, notes, n);
    if !HasNote(off, notes, n) {
      NoNoteNoChange(m.attachments, off, notes, n);
      NoNotesIn(off, notes, n);
      assert LinesOf(m.content, []) == Own(m.content);
    }
  }

  lemma {:induction false} NoNotesIn(off: nat, notes: Notes, j: nat)
    requires forall g: nat :: off <= g < off + j ==> g !in notes
    ensures NotesIn(off, notes, j) == []
  {
    if j > 0 { NoNotesIn(off, notes, j - 1); }
  }
}
