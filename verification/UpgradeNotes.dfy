/**
promote_upgrade_notes.py: pending notes folded into one `## Upgrade to <version>` section of the guide, and
that section read back out. A guide that ends in a newline is its lines; the two regular expressions that
read a draft heading and a fragment's first line are parameters.
*/
module UpgradeNotes {
  import opened Wrappers

  type Lines = seq<string>

  /** A note: its headline, and its body without blank lines at either end; a draft's body may be empty. */
  datatype Note = Note(headline: string, body: Lines)

  /** A draft heading found at the start of some lines: the headline, and how many lines the match takes. */
  datatype DraftMatch = DraftMatch(headline: string, lines: nat)

  datatype Syntax = Syntax(draft: Lines -> Option<DraftMatch>, heading: string -> Option<string>)

  predicate IsSection(line: string) {
    "## " <= line
  }

  // ---- Blank lines ----

  predicate AllBlank(lines: Lines) {
    forall i :: 0 <= i < |lines| ==> lines[i] == ""
  }

  function DropTrailing(lines: Lines): Lines {
    if lines != [] && lines[|lines| - 1] == "" then DropTrailing(lines[..|lines| - 1]) else lines
  }

  function DropLeading(lines: Lines): Lines {
    if lines != [] && lines[0] == "" then DropLeading(lines[1..]) else lines
  }

  /** The text of some lines without the newlines at its ends, as lines again. */
  function Strip(lines: Lines): Lines {
    DropLeading(DropTrailing(lines))
  }

  lemma {:induction false} TrailingAreBlank(lines: Lines)
    ensures var kept := DropTrailing(lines);
      && |kept| <= |lines| && lines[..|kept|] == kept && AllBlank(lines[|kept|..])
      && (kept != [] ==> kept[|kept| - 1] != "")
  {
    if lines != [] && lines[|lines| - 1] == "" {
      TrailingAreBlank(lines[..|lines| - 1]);
      var kept := DropTrailing(lines);
      assert lines[|kept|..] == lines[..|lines| - 1][|kept|..] + [""];
    } else {
      assert lines[..|lines|] == lines;
    }
  }

  lemma {:induction false} LeadingAreBlank(lines: Lines)
    ensures var kept := DropLeading(lines);
      && |kept| <= |lines| && lines[|lines| - |kept|..] == kept && AllBlank(lines[..|lines| - |kept|])
      && (kept != [] ==> kept[0] != "")
  {
    if lines != [] && lines[0] == "" {
      LeadingAreBlank(lines[1..]);
      var kept := DropLeading(lines);
      assert lines[..|lines| - |kept|] == [""] + lines[1..][..|lines| - 1 - |kept|];
    }
  }

  // ---- Splitting the drafts off ----

  /** The first section line at or after `from`, or the end. */
  function NextSection(lines: Lines, from: nat): (k: nat)
    requires from <= |lines|
    ensures from <= k <= |lines| && (k < |lines| ==> IsSection(lines[k]))
    ensures forall i :: from <= i < k ==> !IsSection(lines[i])
    decreases |lines| - from
  {
    if from == |lines| || IsSection(lines[from]) then from else NextSection(lines, from + 1)
  }

  datatype Split = Split(drafts: seq<Note>, kept: Lines)

  /** A draft section: its note, and the line where the next section, or the end, is. */
  datatype Draft = Draft(note: Note, end: nat)

  /** The draft that starts at line `at`, if one does; its body runs to the next section. */
  function DraftAt(syntax: Syntax, lines: Lines, at: nat): (d: Option<Draft>)
    requires at < |lines|
    ensures d.Some? ==> at < d.value.end <= |lines|
  {
    var m := syntax.draft(lines[at..]);
    if m.None? || !(1 <= m.value.lines <= |lines| - at) then None
    else
      var after := at + m.value.lines;
      var end := NextSection(lines, after);
      Some(Draft(Note(m.value.headline, Strip(lines[after..end])), end))
  }

  /** The drafts from line `at` on, and the lines outside them. */
  function Drafts(syntax: Syntax, lines: Lines, at: nat): Split
    requires at <= |lines|
    decreases |lines| - at
  {
    if at == |lines| then Split([], [])
    else
      var d := DraftAt(syntax, lines, at);
      if d.None? then
        var rest := Drafts(syntax, lines, at + 1);
        Split(rest.drafts, [lines[at]] + rest.kept)
      else
        var rest := Drafts(syntax, lines, d.value.end);
        Split([d.value.note] + rest.drafts, rest.kept)
  }

  /** What has been split off so far, with what the rest will give. */
  function Joined(drafts: seq<Note>, kept: Lines, rest: Split): Split {
    Split(drafts + rest.drafts, kept + rest.kept)
  }

  lemma KeepLine(drafts: seq<Note>, kept: Lines, line: string, rest: Split)
    ensures Joined(drafts, kept, Split(rest.drafts, [line] + rest.kept)) == Joined(drafts, kept + [line], rest)
  {
    assert kept + ([line] + rest.kept) == kept + [line] + rest.kept;
  }

  lemma TakeDraft(drafts: seq<Note>, kept: Lines, note: Note, rest: Split)
    ensures Joined(drafts, kept, Split([note] + rest.drafts, rest.kept)) == Joined(drafts + [note], kept, rest)
  {
    assert drafts + ([note] + rest.drafts) == drafts + [note] + rest.drafts;
  }

  method SplitDrafts(syntax: Syntax, text: Lines) returns (drafts: seq<Note>, remainder: Lines)
    ensures Split(drafts, remainder) == Drafts(syntax, text, 0)
  {
    drafts, remainder := [], [];
    var pos := 0;
    ghost var all := Drafts(syntax, text, 0);
    assert [] + all.drafts == all.drafts && [] + all.kept == all.kept;
    while pos < |text|
      invariant 0 <= pos <= |text|
      invariant Joined(drafts, remainder, Drafts(syntax, text, pos)) == all
      decreases |text| - pos
    {
      var d := DraftAt(syntax, text, pos);
      if d.None? {
        KeepLine(drafts, remainder, text[pos], Drafts(syntax, text, pos + 1));
        remainder := remainder + [text[pos]];
        pos := pos + 1;
      } else {
        TakeDraft(drafts, remainder, d.value.note, Drafts(syntax, text, d.value.end));
        drafts := drafts + [d.value.note];
        pos := d.value.end;
      }
    }
    assert drafts + [] == drafts && remainder + [] == remainder;
  }

  predicate NoSection(lines: Lines) {
    forall l :: l in lines ==> !IsSection(l)
  }

  lemma StripIsASlice(lines: Lines)
    ensures forall l :: l in Strip(lines) ==> l in lines
    ensures Strip(lines) != [] ==> Strip(lines)[|Strip(lines)| - 1] != ""
  {
    var d := DropTrailing(lines);
    TrailingAreBlank(lines);
    LeadingAreBlank(d);
    assert forall l :: l in d ==> l in lines;
    assert forall l :: l in Strip(lines) ==> l in d;
  }

  /** A body that does not end blank and holds no section line, as a draft's does: it ends before the next. */
  predicate CleanBody(n: Note) {
    NoSection(n.body) && (n.body == [] || n.body[|n.body| - 1] != "")
  }

  lemma DraftIsClean(syntax: Syntax, lines: Lines, at: nat)
    requires at < |lines| && DraftAt(syntax, lines, at).Some?
    ensures CleanBody(DraftAt(syntax, lines, at).value.note)
  {
    var after := at + syntax.draft(lines[at..]).value.lines;
    StripIsASlice(lines[after..NextSection(lines, after)]);
  }

  lemma {:induction false} DraftsAreClean(syntax: Syntax, lines: Lines, at: nat)
    requires at <= |lines|
    ensures forall n :: n in Drafts(syntax, lines, at).drafts ==> CleanBody(n)
    decreases |lines| - at
  {
    if at < |lines| {
      var d := DraftAt(syntax, lines, at);
      if d.None? {
        DraftsAreClean(syntax, lines, at + 1);
      } else {
        DraftIsClean(syntax, lines, at);
        DraftsAreClean(syntax, lines, d.value.end);
      }
    }
  }

  lemma {:induction false} KeptLinesAreGuideLines(syntax: Syntax, lines: Lines, at: nat)
    requires at <= |lines|
    ensures forall l :: l in Drafts(syntax, lines, at).kept ==> l in lines
    decreases |lines| - at
  {
    if at < |lines| {
      var d := DraftAt(syntax, lines, at);
      KeptLinesAreGuideLines(syntax, lines, if d.None? then at + 1 else d.value.end);
    }
  }

  // ---- The section ----

  function Heading(version: string): string {
    "## Upgrade to " + version
  }

  /** A note in the section: a blank line, the headline, a blank line, the body; an empty body is a blank line. */
  function NoteLines(n: Note): Lines {
    ["", "### " + n.headline, ""] + if n.body == [] then [""] else n.body
  }

  function NotesLines(notes: seq<Note>): Lines {
    if notes == [] then [] else NotesLines(notes[..|notes| - 1]) + NoteLines(notes[|notes| - 1])
  }

  function SectionFor(version: string, notes: seq<Note>): Lines {
    [Heading(version)] + NotesLines(notes)
  }

  predicate EndsWith(line: string, suffix: string) {
    |suffix| <= |line| && line[|line| - |suffix|..] == suffix
  }

  /** The first line that ends in the heading, or the end: the search is for text, not for a line. */
  function FirstEnding(lines: Lines, suffix: string): (k: nat)
    ensures k <= |lines| && (k < |lines| ==> EndsWith(lines[k], suffix))
    ensures forall i :: 0 <= i < k ==> !EndsWith(lines[i], suffix)
  {
    if lines == [] || EndsWith(lines[0], suffix) then 0
    else
      var k := FirstEnding(lines[1..], suffix);
      assert forall i :: 1 <= i < k + 1 ==> lines[i] == lines[1..][i - 1];
      k + 1
  }

  /** From the heading to the next section, without the blank lines at the end. */
  function FindSection(lines: Lines, version: string): Option<Lines> {
    var start := FirstEnding(lines, Heading(version));
    if start == |lines| then None
    else Some(DropTrailing([Heading(version)] + lines[start + 1..NextSection(lines, start + 1)]))
  }

  // ---- Promote ----

  /** A fragment file: its name, first line, and the lines after it. */
  datatype File = File(name: string, first: string, rest: Lines)

  const README := "README.md"

  /** The notes of the fragment files, in the order of their names; None when one cannot be folded. */
  function Fragments(syntax: Syntax, files: seq<File>): Option<seq<Note>> {
    if files == [] then Some([])
    else
      var f := files[|files| - 1];
      var before := Fragments(syntax, files[..|files| - 1]);
      if before.None? || f.name == README then before
      else if syntax.heading(f.first).None? || Strip(f.rest) == [] then None
      else Some(before.value + [Note(syntax.heading(f.first).value, Strip(f.rest))])
  }

  function Readmes(files: seq<File>): seq<File> {
    if files == [] then []
    else Readmes(files[..|files| - 1]) + if files[|files| - 1].name == README then [files[|files| - 1]] else []
  }

  /** The guide and the fragments, the files of the directory in name order. */
  datatype Tree = Tree(guide: Lines, files: seq<File>)

  function Pending(syntax: Syntax, t: Tree): seq<Note>
    requires Fragments(syntax, t.files).Some?
  {
    Drafts(syntax, t.guide, 0).drafts + Fragments(syntax, t.files).value
  }

  /** The guide with the section above its first section, one blank line on either side. */
  function Folded(remainder: Lines, section: Lines): Lines {
    var cut := NextSection(remainder, 0);
    var head, tail := DropTrailing(remainder[..cut]), DropLeading(remainder[cut..]);
    (if head == [] then [""] else head) + [""] + section + if tail == [] then [] else [""] + tail
  }

  predicate Writes(syntax: Syntax, t: Tree, version: string)
  {
    && Fragments(syntax, t.files).Some?
    && FindSection(t.guide, version).None?
    && Pending(syntax, t) != []
  }

  function Promoted(syntax: Syntax, t: Tree, version: string): Tree
  {
    if !Writes(syntax, t, version) then t
    else Tree(Folded(Drafts(syntax, t.guide, 0).kept, SectionFor(version, Pending(syntax, t))), Readmes(t.files))
  }

  class Checkout {
    var guide: Lines
    var files: seq<File>

    ghost function State(): Tree
      reads this
    {
      Tree(guide, files)
    }

    constructor (t: Tree)
      ensures State() == t
    {
      guide, files := t.guide, t.files;
    }

    method ReadFragments(syntax: Syntax) returns (fragments: Option<seq<Note>>)
      ensures fragments == Fragments(syntax, files)
    {
      fragments := Some([]);
      for i := 0 to |files|
        invariant fragments == Fragments(syntax, files[..i])
      {
        var f := files[i];
        assert files[..i + 1][..i] == files[..i];
        if fragments.Some? && f.name != README {
          var heading, body := syntax.heading(f.first), Strip(f.rest);
          if heading.None? || body == [] {
            fragments := None;
          } else {
            fragments := Some(fragments.value + [Note(heading.value, body)]);
          }
        }
      }
      assert files[..|files|] == files;
    }

    method UnlinkFragments()
      modifies this`files
      ensures files == Readmes(old(files))
    {
      var kept: seq<File> := [];
      for i := 0 to |files|
        invariant files == old(files) && kept == Readmes(files[..i])
      {
        assert files[..i + 1][..i] == files[..i];
        if files[i].name == README {
          kept := kept + [files[i]];
        }
      }
      assert files[..|files|] == files;
      files := kept;
    }

    /** Everything is read before anything is written; a malformed fragment leaves all of it as it was. */
    method Promote(syntax: Syntax, version: string) returns (code: int)
      modifies this
      ensures State() == Promoted(syntax, old(State()), version)
      ensures code == if Fragments(syntax, old(files)).None? then 1 else 0
      ensures code == 1 <==>
        exists f :: f in old(files) && f.name != "README.md" && (syntax.heading(f.first).None? || AllBlank(f.rest))
      ensures !Writes(syntax, old(State()), version) ==> State() == old(State())
      ensures Writes(syntax, old(State()), version) ==> forall f :: f in files <==> f in old(files) && f.name == "README.md"
    {
      FragmentsReadIff(syntax, files);
      var fragments := ReadFragments(syntax);
      if fragments.None? {
        return 1;
      }
      var drafts, remainder := SplitDrafts(syntax, guide);
      var notes := drafts + fragments.value;
      assert notes == Pending(syntax, State());
      if FindSection(guide, version).Some? {
        return 0;
      }
      if notes == [] {
        return 0;
      }
      guide := Folded(remainder, SectionFor(version, notes));
      UnlinkFragments();
      forall f ensures f in files <==> f in old(files) && f.name == "README.md" {
        ReadmesAreKept(old(files), f);
      }
      return 0;
    }
  }

  // ---- Promote, then extract ----

  lemma {:induction false} BlankTail(lines: Lines, blanks: Lines)
    requires AllBlank(blanks)
    ensures DropTrailing(lines + blanks) == DropTrailing(lines)
    decreases |blanks|
  {
    if blanks == [] {
      assert lines + blanks == lines;
    } else {
      assert (lines + blanks)[..|lines + blanks| - 1] == lines + blanks[..|blanks| - 1];
      BlankTail(lines, blanks[..|blanks| - 1]);
    }
  }

  lemma {:induction false} FirstEndingAfter(before: Lines, heading: string, following: Lines)
    requires forall l :: l in before ==> !EndsWith(l, heading)
    ensures FirstEnding(before + [heading] + following, heading) == |before|
  {
    var lines := before + [heading] + following;
    if before == [] {
      assert lines[0] == heading;
    } else {
      assert lines[0] == before[0] && lines[1..] == before[1..] + [heading] + following;
      FirstEndingAfter(before[1..], heading, following);
    }
  }

  lemma {:induction false} NextSectionShifts(a: Lines, b: Lines, k: nat)
    requires k <= |b|
    ensures NextSection(a + b, |a| + k) == |a| + NextSection(b, k)
    decreases |b| - k
  {
    if k < |b| {
      assert (a + b)[|a| + k] == b[k];
      if !IsSection(b[k]) {
        NextSectionShifts(a, b, k + 1);
      }
    }
  }

  lemma NextSectionIs(lines: Lines, from: nat, k: nat)
    requires from <= k <= |lines| && (k < |lines| ==> IsSection(lines[k]))
    requires forall i :: from <= i < k ==> !IsSection(lines[i])
    ensures NextSection(lines, from) == k
  {
  }

  predicate BodiesHoldNoSection(notes: seq<Note>) {
    forall n :: n in notes ==> NoSection(n.body)
  }

  /** The section's lines after the heading hold a section line exactly when some body does. */
  lemma {:induction false} SectionLinesComeFromBodies(notes: seq<Note>)
    ensures NoSection(NotesLines(notes)) <==> BodiesHoldNoSection(notes)
  {
    if notes != [] {
      var n := notes[|notes| - 1];
      SectionLinesComeFromBodies(notes[..|notes| - 1]);
      assert !IsSection("### " + n.headline) by {
        assert ("### " + n.headline)[2] == '#';
      }
      assert NoSection(NoteLines(n)) <==> NoSection(n.body) by {
        assert forall l :: l in n.body ==> l in NoteLines(n);
      }
      assert notes == notes[..|notes| - 1] + [n];
      assert forall l :: l in NotesLines(notes) <==> l in NotesLines(notes[..|notes| - 1]) || l in NoteLines(n);
    }
  }

  /** The section ends in a blank line exactly when its last note has no body. */
  lemma SectionEndsInABody(version: string, notes: seq<Note>)
    requires notes != [] && (forall n :: n in notes ==> n.body == [] || n.body[|n.body| - 1] != "")
    ensures DropTrailing(SectionFor(version, notes)) == SectionFor(version, notes) <==> notes[|notes| - 1].body != []
  {
    var n := notes[|notes| - 1];
    var s := SectionFor(version, notes);
    assert s[|s| - 1] == NoteLines(n)[|NoteLines(n)| - 1];
    TrailingAreBlank(s);
    assert n in notes;
  }

  /** The guide `Folded` writes: what precedes the section, the section, what follows it. */
  lemma FoldedParts(remainder: Lines, section: Lines) returns (before: Lines, after: Lines)
    ensures Folded(remainder, section) == before + section + after
    ensures forall l :: l in before ==> l in remainder || l == ""
    ensures after == [] || (|after| > 1 && after[0] == "" && IsSection(after[1]))
  {
    var cut := NextSection(remainder, 0);
    var head, tail := DropTrailing(remainder[..cut]), DropLeading(remainder[cut..]);
    TrailingAreBlank(remainder[..cut]);
    assert tail == remainder[cut..];
    before := (if head == [] then [""] else head) + [""];
    after := if tail == [] then [] else [""] + tail;
    assert forall l :: l in head ==> l in remainder[..cut];
    assert Folded(remainder, section) == before + section + after;
  }

  lemma SliceAfter<T>(a: seq<T>, b: seq<T>, n: nat)
    requires n <= |b|
    ensures (a + b)[|a|..|a| + n] == b[..n]
  {
  }

  /** After lines that do not end in the heading, the section found is the heading and what follows up to the next. */
  lemma FoundAfter(version: string, before: Lines, following: Lines)
    requires forall l :: l in before ==> !EndsWith(l, Heading(version))
    ensures FindSection(before + [Heading(version)] + following, version)
            == Some(DropTrailing([Heading(version)] + following[..NextSection(following, 0)]))
  {
    hide FirstEnding, NextSection, EndsWith, DropTrailing, Heading;
    var start, end := before + [Heading(version)], NextSection(following, 0);
    FirstEndingAfter(before, Heading(version), following);
    NextSectionShifts(start, following, 0);
    SliceAfter(start, following, end);
  }

  /** A blank line before the next section ends nothing that is kept. */
  lemma EndOfSection(heading: string, rest: Lines, after: Lines)
    requires after == [] || (|after| > 1 && after[0] == "" && IsSection(after[1]))
    ensures DropTrailing([heading] + (rest + after)[..NextSection(rest + after, 0)])
            == DropTrailing([heading] + rest[..NextSection(rest, 0)])
  {
    var end, all := NextSection(rest, 0), rest + after;
    if end < |rest| || after == [] {
      assert after == [] ==> all == rest;
      NextSectionIs(all, 0, end);
      assert all[..end] == rest[..end];
    } else {
      assert all[|rest|] == after[0] && all[|rest| + 1] == after[1] && !IsSection("");
      NextSectionIs(all, 0, |rest| + 1);
      assert all[..|rest| + 1] == rest + [""] && rest[..end] == rest;
      assert [heading] + (rest + [""]) == ([heading] + rest) + [""];
      BlankTail([heading] + rest, [""]);
    }
  }

  lemma FoundInText(version: string, before: Lines, rest: Lines, after: Lines, section: Lines)
    requires section == [Heading(version)] + rest
    requires forall l :: l in before ==> !EndsWith(l, Heading(version))
    requires after == [] || (|after| > 1 && after[0] == "" && IsSection(after[1]))
    ensures FindSection(before + section + after, version)
            == Some(DropTrailing([Heading(version)] + rest[..NextSection(rest, 0)]))
  {
    assert before + section + after == before + [Heading(version)] + (rest + after);
    FoundAfter(version, before, rest + after);
    EndOfSection(Heading(version), rest, after);
  }

  lemma HeadingIsNotInKept(syntax: Syntax, t: Tree, version: string)
    requires FindSection(t.guide, version).None?
    ensures forall l :: l in Drafts(syntax, t.guide, 0).kept || l == "" ==> !EndsWith(l, Heading(version))
  {
    KeptLinesAreGuideLines(syntax, t.guide, 0);
    forall l | l in t.guide ensures !EndsWith(l, Heading(version)) {
      var i :| 0 <= i < |t.guide| && t.guide[i] == l;
    }
  }

  lemma {:induction false} FragmentBodiesAreStripped(syntax: Syntax, files: seq<File>)
    requires Fragments(syntax, files).Some?
    ensures forall n :: n in Fragments(syntax, files).value ==> n.body != [] && n.body[|n.body| - 1] != ""
  {
    if files != [] {
      FragmentBodiesAreStripped(syntax, files[..|files| - 1]);
      StripIsASlice(files[|files| - 1].rest);
    }
  }

  /** The section up to the next section line, less blank lines, is all of it iff no body cuts it short. */
  lemma WholeSectionIff(version: string, notes: seq<Note>)
    requires notes != [] && (forall n :: n in notes ==> n.body == [] || n.body[|n.body| - 1] != "")
    ensures var rest := NotesLines(notes);
      DropTrailing([Heading(version)] + rest[..NextSection(rest, 0)]) == SectionFor(version, notes) <==>
      BodiesHoldNoSection(notes) && notes[|notes| - 1].body != []
  {
    SectionLinesComeFromBodies(notes);
    SectionEndsInABody(version, notes);
    CutIffSection(Heading(version), NotesLines(notes));
  }

  lemma CutIffSection(heading: string, rest: Lines)
    ensures var found := DropTrailing([heading] + rest[..NextSection(rest, 0)]);
      if NoSection(rest) then found == DropTrailing([heading] + rest) else |found| < 1 + |rest|
  {
    var end := NextSection(rest, 0);
    TrailingAreBlank([heading] + rest[..end]);
    if NoSection(rest) {
      assert end == |rest| && rest[..end] == rest;
    } else {
      var l :| l in rest && IsSection(l);
      var i :| 0 <= i < |rest| && rest[i] == l;
      assert end <= i;
    }
  }

  /**
  Extracting the version after a promote that wrote gives the section of all drafts, then all fragments,
  exactly when no fragment's body has a line that starts a section and the last note has a body.
  */
  lemma PromoteThenExtractIff(syntax: Syntax, t: Tree, version: string)
    requires Writes(syntax, t, version)
    ensures var notes := Pending(syntax, t);
      FindSection(Promoted(syntax, t, version).guide, version) == Some(SectionFor(version, notes)) <==>
      BodiesHoldNoSection(Fragments(syntax, t.files).value) && notes[|notes| - 1].body != []
  {
    var notes, split := Pending(syntax, t), Drafts(syntax, t.guide, 0);
    var section, rest := SectionFor(version, notes), NotesLines(notes);
    HeadingIsNotInKept(syntax, t, version);
    var before, after := FoldedParts(split.kept, section);
    FoundInText(version, before, rest, after, section);
    DraftsAreClean(syntax, t.guide, 0);
    FragmentBodiesAreStripped(syntax, t.files);
    WholeSectionIff(version, notes);
    assert BodiesHoldNoSection(notes) <==> BodiesHoldNoSection(Fragments(syntax, t.files).value);
  }

  /** A second promote of the version writes nothing, whatever the first one did. */
  lemma SecondPromoteWritesNothing(syntax: Syntax, t: Tree, version: string)
    ensures var once := Promoted(syntax, t, version); Promoted(syntax, once, version) == once
  {
    if Writes(syntax, t, version) {
      var notes, split := Pending(syntax, t), Drafts(syntax, t.guide, 0);
      HeadingIsNotInKept(syntax, t, version);
      var before, after := FoldedParts(split.kept, SectionFor(version, notes));
      FoundInText(version, before, NotesLines(notes), after, SectionFor(version, notes));
    }
  }

  lemma CutAtSection(remainder: Lines) returns (head: Lines, gap: Lines, tail: Lines)
    ensures var cut := NextSection(remainder, 0);
      head == DropTrailing(remainder[..cut]) && tail == DropLeading(remainder[cut..])
    ensures remainder == head + gap + tail && AllBlank(gap) && NoSection(head) && (tail == [] || "## " <= tail[0])
  {
    hide NextSection, DropTrailing;
    var cut := NextSection(remainder, 0);
    var kept := remainder[..cut];
    assert NoSection(kept);
    head, gap := WithoutTrailing(kept);
    tail := remainder[cut..];
    assert remainder == kept + tail;
  }

  lemma WithoutTrailing(lines: Lines) returns (kept: Lines, blanks: Lines)
    ensures kept == DropTrailing(lines) && lines == kept + blanks && AllBlank(blanks)
    ensures NoSection(lines) ==> NoSection(kept)
  {
    TrailingAreBlank(lines);
    kept := DropTrailing(lines);
    blanks := lines[|kept|..];
    assert lines == lines[..|kept|] + blanks;
    assert forall l :: l in kept ==> l in lines[..|kept|];
  }

  lemma FoldedSurvives(remainder: Lines, section: Lines)
    returns (head: Lines, gap: Lines, pad: Lines, rule: Lines, tail: Lines)
    ensures remainder == head + gap + tail && Folded(remainder, section) == head + pad + section + rule + tail
    ensures AllBlank(gap) && AllBlank(pad) && AllBlank(rule) && NoSection(head) && (tail == [] || "## " <= tail[0])
  {
    hide DropTrailing, DropLeading, NextSection, NoSection;
    head, gap, tail := CutAtSection(remainder);
    pad := if head == [] then ["", ""] else [""];
    rule := if tail == [] then [] else [""];
    var first := if head == [] then [""] else head;
    assert first + [""] == head + pad;
    Assembled(first, head, pad, section, rule, tail, "");
    assert rule + tail == if tail == [] then [] else [""] + tail;
  }

  lemma Assembled<T>(first: seq<T>, head: seq<T>, pad: seq<T>, section: seq<T>, rule: seq<T>, tail: seq<T>, blank: T)
    requires first + [blank] == head + pad
    ensures first + [blank] + section + (rule + tail) == head + pad + section + rule + tail
  {
  }

  /**
  The guide outside the drafts survives in order: only blank lines at the cut come or go. The new section,
  the drafts and then the fragments under its heading, is the guide's first: no line before it starts one.
  */
  lemma GuideSurvives(syntax: Syntax, t: Tree, version: string)
    returns (head: Lines, gap: Lines, pad: Lines, rule: Lines, tail: Lines)
    requires Writes(syntax, t, version)
    ensures Drafts(syntax, t.guide, 0).kept == head + gap + tail
    ensures var notes := Drafts(syntax, t.guide, 0).drafts + Fragments(syntax, t.files).value;
      Promoted(syntax, t, version).guide == head + pad + ["## Upgrade to " + version] + NotesLines(notes) + rule + tail
    ensures AllBlank(gap) && AllBlank(pad) && AllBlank(rule)
    ensures (forall l :: l in head ==> !("## " <= l)) && (tail == [] || "## " <= tail[0])
  {
    var section := SectionFor(version, Pending(syntax, t));
    head, gap, pad, rule, tail := FoldedSurvives(Drafts(syntax, t.guide, 0).kept, section);
    Unpacked(head + pad, "## Upgrade to " + version, NotesLines(Pending(syntax, t)), section);
  }

  lemma Unpacked<T>(before: seq<T>, first: T, rest: seq<T>, whole: seq<T>)
    requires whole == [first] + rest
    ensures before + whole == before + [first] + rest
  {
  }

  // ---- No note is lost ----

  /** A note stands in the notes' lines as a headline of its own with its body under it. */
  lemma {:induction false} NoteStands(notes: seq<Note>, k: nat) returns (before: Lines, after: Lines)
    requires k < |notes|
    ensures var n := notes[k];
      NotesLines(notes) == before + (["", "### " + n.headline, ""] + if n.body == [] then [""] else n.body) + after
    decreases |notes|
  {
    var last := |notes| - 1;
    if k == last {
      before, after := NotesLines(notes[..last]), [];
      assert before + NoteLines(notes[k]) + [] == before + NoteLines(notes[k]);
    } else {
      before, after := NoteStands(notes[..last], k);
      assert notes[..last][k] == notes[k];
      after := after + NoteLines(notes[last]);
    }
  }

  /** Every draft and every fragment stands in the promoted guide. */
  lemma EveryNoteStands(syntax: Syntax, t: Tree, version: string, n: Note) returns (before: Lines, after: Lines)
    requires Writes(syntax, t, version)
    requires n in Drafts(syntax, t.guide, 0).drafts || n in Fragments(syntax, t.files).value
    ensures Promoted(syntax, t, version).guide ==
      before + (["", "### " + n.headline, ""] + if n.body == [] then [""] else n.body) + after
  {
    hide Drafts, Fragments, NotesLines, Promoted, AllBlank;
    var notes := Drafts(syntax, t.guide, 0).drafts + Fragments(syntax, t.files).value;
    var head, gap, pad, rule, tail := GuideSurvives(syntax, t, version);
    assert n in notes;
    var k :| 0 <= k < |notes| && notes[k] == n;
    var above, below := NoteStands(notes, k);
    var first := head + pad + ["## Upgrade to " + version];
    before, after := first + above, below + (rule + tail);
    Inside(first, above, ["", "### " + n.headline, ""] + if n.body == [] then [""] else n.body, below, rule, tail);
  }

  lemma Inside<T>(a: seq<T>, b: seq<T>, c: seq<T>, d: seq<T>, e: seq<T>, f: seq<T>)
    ensures a + (b + c + d) + e + f == (a + b) + c + (d + (e + f))
  {
  }

  lemma StripKeepsText(lines: Lines) returns (lead: Lines, trail: Lines)
    ensures lines == lead + Strip(lines) + trail && AllBlank(lead) && AllBlank(trail)
    ensures Strip(lines) == [] <==> AllBlank(lines)
  {
    var d := DropTrailing(lines);
    TrailingAreBlank(lines);
    LeadingAreBlank(d);
    lead, trail := d[..|d| - |Strip(lines)|], lines[|d|..];
    assert d == lead + Strip(lines) && lines == d + trail;
    if Strip(lines) != [] {
      assert lines[|lead|] == Strip(lines)[0];
    }
  }

  /** A draft is its heading's headline and the lines to the next section, without the blank ones at its ends. */
  lemma DraftIsItsLines(syntax: Syntax, lines: Lines, at: nat) returns (lead: Lines, trail: Lines)
    requires at < |lines| && DraftAt(syntax, lines, at).Some?
    ensures var d, m := DraftAt(syntax, lines, at).value, syntax.draft(lines[at..]);
      && m.Some? && at < at + m.value.lines <= d.end <= |lines| && d.note.headline == m.value.headline
      && lines[at + m.value.lines..d.end] == lead + d.note.body + trail && AllBlank(lead) && AllBlank(trail)
      && (forall i | at + m.value.lines <= i < d.end :: !("## " <= lines[i])) && (d.end < |lines| ==> "## " <= lines[d.end])
  {
    var d, m := DraftAt(syntax, lines, at).value, syntax.draft(lines[at..]).value;
    lead, trail := StripKeepsText(lines[at + m.lines..d.end]);
  }

  /** The drafts stand one after the other where their headings do. */
  lemma {:induction false} DraftsStandInOrder(syntax: Syntax, lines: Lines, at: nat) returns (starts: seq<nat>)
    requires at <= |lines|
    ensures var drafts := Drafts(syntax, lines, at).drafts;
      && |starts| == |drafts|
      && (forall k | 0 <= k < |starts| :: at <= starts[k] < |lines| && DraftAt(syntax, lines, starts[k]).Some?
                                         && DraftAt(syntax, lines, starts[k]).value.note == drafts[k])
      && (forall k | 0 < k < |starts| :: DraftAt(syntax, lines, starts[k - 1]).value.end <= starts[k])
    decreases |lines| - at
  {
    hide DraftAt;
    starts := [];
    if at < |lines| {
      var d := DraftAt(syntax, lines, at);
      starts := DraftsStandInOrder(syntax, lines, if d.None? then at + 1 else d.value.end);
      if d.Some? {
        starts := [at] + starts;
      }
    }
  }

  /** A line is kept, or it is blank, or it belongs to a draft: to its body, or to a heading with its headline. */
  ghost predicate Accounted(syntax: Syntax, lines: Lines, i: nat, split: Split)
    requires i < |lines|
  {
    || lines[i] == "" || lines[i] in split.kept
    || (exists n :: n in split.drafts && lines[i] in n.body)
    || (exists j, n :: n in split.drafts && InHeading(syntax, lines, j, i, n))
  }

  predicate InHeading(syntax: Syntax, lines: Lines, j: int, i: nat, n: Note)
    requires i < |lines|
  {
    && 0 <= j <= i && syntax.draft(lines[j..]).Some?
    && syntax.draft(lines[j..]).value.headline == n.headline && i < j + syntax.draft(lines[j..]).value.lines
  }

  lemma {:induction false} NoLineIsLost(syntax: Syntax, lines: Lines, at: nat, i: nat)
    requires at <= i < |lines|
    ensures Accounted(syntax, lines, i, Drafts(syntax, lines, at))
    decreases |lines| - at
  {
    var d, split := DraftAt(syntax, lines, at), Drafts(syntax, lines, at);
    if d.None? {
      if i > at {
        NoLineIsLost(syntax, lines, at + 1, i);
      }
    } else if i >= d.value.end {
      NoLineIsLost(syntax, lines, d.value.end, i);
    } else {
      var n, m := split.drafts[0], syntax.draft(lines[at..]).value;
      var lead, trail := DraftIsItsLines(syntax, lines, at);
      assert n in split.drafts && n == d.value.note;
      if i < at + m.lines {
        assert InHeading(syntax, lines, at, i, n);
      } else {
        assert lines[i] == lines[at + m.lines..d.value.end][i - at - m.lines];
        assert lines[i] in lead + n.body + trail;
      }
    }
  }

  /** The note of file `i`: its headline, and its text without the blank lines at its ends. */
  predicate FragmentOf(syntax: Syntax, files: seq<File>, i: nat, n: Note) {
    && i < |files| && files[i].name != "README.md"
    && syntax.heading(files[i].first) == Some(n.headline) && n.body == Strip(files[i].rest)
  }

  /** These notes are those of the files at these places: of all but the README, in the order of the files. */
  ghost predicate AreFragments(syntax: Syntax, files: seq<File>, notes: seq<Note>, places: seq<nat>) {
    && |places| == |notes|
    && (forall k | 0 <= k < |places| :: FragmentOf(syntax, files, places[k], notes[k]))
    && (forall j, k | 0 <= j < k < |places| :: places[j] < places[k])
    && (forall i | 0 <= i < |files| && files[i].name != "README.md" :: i in places)
  }

  lemma OneMoreFile(syntax: Syntax, files: seq<File>, f: File, notes: seq<Note>, places: seq<nat>, n: Note)
    requires AreFragments(syntax, files, notes, places)
    ensures f.name == "README.md" ==> AreFragments(syntax, files + [f], notes, places)
    ensures FragmentOf(syntax, [f], 0, n) ==> AreFragments(syntax, files + [f], notes + [n], places + [|files|])
  {
    hide Strip;
    var more := files + [f];
    forall k | 0 <= k < |places| ensures FragmentOf(syntax, more, places[k], notes[k]) {
      assert FragmentOf(syntax, files, places[k], notes[k]);
    }
    if FragmentOf(syntax, [f], 0, n) {
      forall i | 0 <= i < |more| && more[i].name != "README.md" ensures i in places + [|files|] {
        assert (places + [|files|])[|places|] == |files|;
      }
    }
  }

  lemma {:induction false} FragmentsAreTheFiles(syntax: Syntax, files: seq<File>) returns (places: seq<nat>)
    requires Fragments(syntax, files).Some?
    ensures AreFragments(syntax, files, Fragments(syntax, files).value, places)
  {
    places := [];
    if files != [] {
      var n := |files| - 1;
      var before, f := files[..n], files[n];
      hide Strip, AreFragments;
      places := FragmentsAreTheFiles(syntax, before);
      assert files == before + [f];
      var notes := Fragments(syntax, before).value;
      if f.name == README {
        OneMoreFile(syntax, before, f, notes, places, Note("", []));
      } else {
        OneMoreFile(syntax, before, f, notes, places, Note(syntax.heading(f.first).value, Strip(f.rest)));
        places := places + [n];
      }
    }
  }

  /** The fragments are read only if each file but the README has a headline and a text. */
  lemma {:induction false} FragmentsReadIff(syntax: Syntax, files: seq<File>)
    ensures Fragments(syntax, files).Some? <==>
      forall f | f in files && f.name != "README.md" :: syntax.heading(f.first).Some? && !AllBlank(f.rest)
  {
    hide Strip, AllBlank;
    if files != [] {
      var n := |files| - 1;
      FragmentsReadIff(syntax, files[..n]);
      assert files == files[..n] + [files[n]];
      var lead, trail := StripKeepsText(files[n].rest);
    }
  }

  /** Of the files only the README is left. */
  lemma {:induction false} ReadmesAreKept(files: seq<File>, f: File)
    ensures f in Readmes(files) <==> f in files && f.name == "README.md"
  {
    if files != [] {
      ReadmesAreKept(files[..|files| - 1], f);
      assert files == files[..|files| - 1] + [files[|files| - 1]];
    }
  }

  lemma NoneEnds(lines: Lines, suffix: string)
    ensures FirstEnding(lines, suffix) == |lines| <==> forall l | l in lines :: !EndsWith(l, suffix)
  {
    hide EndsWith;
    var start := FirstEnding(lines, suffix);
    if start == |lines| {
      forall l | l in lines ensures !EndsWith(l, suffix) {
        var i :| 0 <= i < |lines| && lines[i] == l;
      }
    } else {
      assert lines[start] in lines;
    }
  }

  /** A promote writes exactly when no fragment is malformed, no line ends in the heading, and there is a note. */
  lemma WritesIff(syntax: Syntax, t: Tree, version: string)
    ensures Writes(syntax, t, version) <==>
      && (forall f | f in t.files && f.name != "README.md" :: syntax.heading(f.first).Some? && !AllBlank(f.rest))
      && (forall l | l in t.guide :: !EndsWith(l, "## Upgrade to " + version))
      && (Drafts(syntax, t.guide, 0).drafts != [] || exists f :: f in t.files && f.name != "README.md")
  {
    hide Drafts, Fragments, FirstEnding, EndsWith, AllBlank;
    FragmentsReadIff(syntax, t.files);
    NoneEnds(t.guide, Heading(version));
    if Fragments(syntax, t.files).Some? {
      var places := FragmentsAreTheFiles(syntax, t.files);
      if Fragments(syntax, t.files).value != [] {
        assert FragmentOf(syntax, t.files, places[0], Fragments(syntax, t.files).value[0]);
        assert t.files[places[0]] in t.files;
      }
      if f :| f in t.files && f.name != "README.md" {
        var i :| 0 <= i < |t.files| && t.files[i] == f;
        assert i in places;
      }
    }
  }

  /** Only drafts are taken out of a guide, and one without any is kept whole. */
  lemma {:induction false} NoDraftKeepsAll(syntax: Syntax, lines: Lines, at: nat)
    requires at <= |lines|
    ensures Drafts(syntax, lines, at).drafts == [] <==> Drafts(syntax, lines, at).kept == lines[at..]
    decreases |lines| - at
  {
    if at < |lines| {
      var d := DraftAt(syntax, lines, at);
      if d.None? {
        NoDraftKeepsAll(syntax, lines, at + 1);
        assert lines[at..] == [lines[at]] + lines[at + 1..];
        Cancel(lines[at], Drafts(syntax, lines, at + 1).kept, lines[at + 1..]);
      } else {
        KeptIsNoLonger(syntax, lines, d.value.end);
        assert |Drafts(syntax, lines, at).kept| < |lines[at..]|;
      }
    }
  }

  lemma Cancel<T>(x: T, a: seq<T>, b: seq<T>)
    ensures [x] + a == [x] + b <==> a == b
  {
    assert ([x] + a)[1..] == a && ([x] + b)[1..] == b;
  }

  lemma {:induction false} KeptIsNoLonger(syntax: Syntax, lines: Lines, at: nat)
    requires at <= |lines|
    ensures |Drafts(syntax, lines, at).kept| <= |lines| - at
    decreases |lines| - at
  {
    if at < |lines| {
      var d := DraftAt(syntax, lines, at);
      KeptIsNoLonger(syntax, lines, if d.None? then at + 1 else d.value.end);
    }
  }
}
