/** The task create and edit forms: the text parsers they share (`getInitials`,
    `parseCommaList`, `parseAssignees`), the payload each form submits, and the
    edit form's prefill, which the parsers read back. The edit form carries its
    own copies of the three parsers, identical to the create form's; they are
    defined once here. */
module TaskForms {
  import opened Wrappers
  import opened Text
  import opened Seqs
  import opened TaskBoard
  import opened TaskActions
  import opened Schemas

  function Min(a: nat, b: nat): nat {
    if a <= b then a else b
  }

  // ---------------------------------------------------------------------------
  // Initials

  /** In a trimmed text with white space inside, the first piece is non-empty
      and starts the text, and the last piece is non-empty, free of white
      space and starts right after a white-space character. */
  lemma OuterWords(t: string)
    requires IsTrimmed(t) && |Words(t)| > 1
    ensures var parts := Words(t);
            var last := parts[|parts| - 1];
            && parts[0] != [] && parts[0][0] == t[0]
            && last != [] && 0 < |t| - |last| - 1
            && IsWhitespace(t[|t| - |last| - 1]) && t[|t| - |last|..] == last && NoWhitespace(last)
  {
    var parts := Words(t);
    FirstWord(t);
    LastWord(t);
    WordsHaveNoWhitespace(t);
    assert parts[0][0] == t[..|parts[0]|][0];
  }

  /** `getInitials`: of the trimmed name, the first two characters of a single
      word, or the first character of the first word followed by the first
      character of the last word; upper-cased. */
  function GetInitials(name: string): (r: string)
    ensures |r| <= 2
  {
    var t := Trim(name);
    OuterWordsFilled(t);
    InitialsOfParts(Words(t))
  }

  /** The initials of the pieces of a trimmed name. */
  function InitialsOfParts(parts: seq<string>): (r: string)
    requires |parts| >= 1
    requires |parts| > 1 ==> parts[0] != [] && parts[|parts| - 1] != []
    ensures |r| <= 2
  {
    if |parts| == 1 then Upper(parts[0][..Min(2, |parts[0]|)])
    else Upper([parts[0][0]] + parts[|parts| - 1][..1])
  }

  /** In a trimmed text the outer pieces are not empty. */
  lemma OuterWordsFilled(t: string)
    requires IsTrimmed(t)
    ensures |Words(t)| > 1 ==> Words(t)[0] != [] && Words(t)[|Words(t)| - 1] != []
  {
    if |Words(t)| > 1 {
      OuterWords(t);
    }
  }

  /** A name of one word gives its first two characters (fewer when it is
      shorter), upper-cased; a blank name gives "". */
  lemma InitialsOfOneWord(name: string)
    requires NoWhitespace(Trim(name))
    ensures var t := Trim(name);
            GetInitials(name) == Upper(t[..Min(2, |t|)])
  {
    var t := Trim(name);
    FirstWord(t);
  }

  /** A trimmed text with white space inside splits into several pieces. */
  lemma SeveralWords(t: string)
    requires IsTrimmed(t) && !NoWhitespace(t)
    ensures |Words(t)| > 1
  {
    FirstWord(t);
    WordsHaveNoWhitespace(t);
  }

  /** A name of several words gives two characters: the first of the name and
      the first of its last word, which follows the last white space. */
  lemma InitialsOfWords(name: string)
    requires !NoWhitespace(Trim(name))
    ensures var t := Trim(name);
            var r := GetInitials(name);
            && |r| == 2 && r[0] == UpperChar(t[0])
            && exists k :: 0 < k < |t| - 1 && IsWhitespace(t[k]) && NoWhitespace(t[k + 1..])
                           && r[1] == UpperChar(t[k + 1])
  {
    var t := Trim(name);
    SeveralWords(t);
    OuterWordsFilled(t);
    OuterInitials(t);
  }

  /** The initials of a trimmed text of several pieces: its first character
      and the first character after its last white space. */
  lemma OuterInitials(t: string)
    requires IsTrimmed(t) && |Words(t)| > 1
    requires Words(t)[0] != [] && Words(t)[|Words(t)| - 1] != []
    ensures var r := InitialsOfParts(Words(t));
            && |r| == 2 && r[0] == UpperChar(t[0])
            && exists k :: 0 < k < |t| - 1 && IsWhitespace(t[k]) && NoWhitespace(t[k + 1..])
                           && r[1] == UpperChar(t[k + 1])
  {
    var parts := Words(t);
    OuterWords(t);
    var last := parts[|parts| - 1];
    var k := |t| - |last| - 1;
    var r := Upper([parts[0][0]] + last[..1]);
    assert InitialsOfParts(parts) == r;
    assert t[k + 1..] == last;
    assert r[1] == UpperChar(t[k + 1]);
  }

  /** A name that is not blank gives initials that are not blank. */
  lemma InitialsNotBlank(name: string)
    requires Trim(name) != ""
    ensures var r := GetInitials(name);
            r != [] && !IsWhitespace(r[0])
  {
    var t := Trim(name);
    UpperCharWhitespace(t[0]);
    if NoWhitespace(t) {
      InitialsOfOneWord(name);
      assert GetInitials(name)[0] == UpperChar(t[0]);
    } else {
      InitialsOfWords(name);
    }
  }

  /** A name that is already trimmed gives the same initials as any padding of it. */
  lemma InitialsOfTrimmed(name: string)
    ensures GetInitials(Trim(name)) == GetInitials(name)
  {
    TrimOfTrimmed(Trim(name));
  }

  // ---------------------------------------------------------------------------
  // Comma lists

  /** `.filter(Boolean)` on strings: the non-empty ones, in order. */
  function NonEmpty(xs: seq<string>): (r: seq<string>)
    ensures forall i :: 0 <= i < |r| ==> r[i] != "" && r[i] in xs
    ensures forall j :: 0 <= j < |xs| && xs[j] != "" ==> xs[j] in r
    ensures IsSubsequence(r, xs)
    ensures |r| == |xs| - multiset(xs)[""]
  {
    if xs == [] then []
    else
      var last := xs[|xs| - 1];
      var kept := NonEmpty(xs[..|xs| - 1]);
      assert xs == xs[..|xs| - 1] + [last];
      assert multiset(xs) == multiset(xs[..|xs| - 1]) + multiset{last};
      if last == "" then
        SubsequenceExtend(kept, xs[..|xs| - 1], last);
        kept
      else
        SubsequenceExtendBoth(kept, xs[..|xs| - 1], last);
        kept + [last]
  }

  /** Every non-empty item is kept as often as it occurs: a repeated label
      is not merged. */
  lemma {:induction false} NonEmptyKeepsRepeats(xs: seq<string>)
    ensures multiset(NonEmpty(xs)) == multiset(xs)["" := 0]
  {
    if xs != [] {
      var n := |xs| - 1;
      NonEmptyKeepsRepeats(xs[..n]);
      assert xs == xs[..n] + [xs[n]];
      assert NonEmpty(xs) == NonEmpty(xs[..n]) + (if xs[n] == "" then [] else [xs[n]]);
      CountsStep(NonEmpty(xs[..n]), xs[..n], xs[n]);
    }
  }

  /** One step of the count: appending an item keeps the counts of the
      non-empty items in step. */
  lemma CountsStep(kept: seq<string>, init: seq<string>, last: string)
    requires multiset(kept) == multiset(init)["" := 0]
    ensures multiset(kept + (if last == "" then [] else [last])) == multiset(init + [last])["" := 0]
  {
    assert multiset(init + [last]) == multiset(init) + multiset{last};
    if last != "" {
      assert multiset(kept + [last]) == multiset(kept) + multiset{last};
    } else {
      assert kept + [] == kept;
    }
  }

  /** A list without empty items is kept whole. */
  lemma NonEmptyOfFilled(xs: seq<string>)
    requires forall i :: 0 <= i < |xs| ==> xs[i] != ""
    ensures NonEmpty(xs) == xs
  {
    assert "" !in xs;
    SubsequenceOfSameLength(NonEmpty(xs), xs);
  }

  /** An item a parser may return: trimmed, non-empty and free of commas. */
  predicate IsListItem(s: string) {
    IsTrimmed(s) && s != "" && ',' !in s
  }

  /** The trimmed pieces of a split are trimmed and free of the separator. */
  lemma TrimmedPieces(pieces: seq<string>, sep: char)
    requires forall i :: 0 <= i < |pieces| ==> sep !in pieces[i]
    ensures forall i :: 0 <= i < |pieces| ==> IsTrimmed(TrimAll(pieces)[i]) && sep !in TrimAll(pieces)[i]
  {
    forall i | 0 <= i < |pieces|
      ensures sep !in TrimAll(pieces)[i]
    {
      TrimmedKeepsMissing(pieces[i], sep);
    }
  }

  /** `parseCommaList`: the comma-separated pieces of the input, trimmed, with
      the empty ones dropped and the rest in input order. */
  function ParseCommaList(input: string): (r: seq<string>)
    ensures forall i :: 0 <= i < |r| ==> IsListItem(r[i])
    ensures var pieces := TrimAll(Split(input, ','));
            && IsSubsequence(r, pieces)
            && forall j :: 0 <= j < |pieces| && pieces[j] != "" ==> pieces[j] in r
    ensures |r| == |TrimAll(Split(input, ','))| - multiset(TrimAll(Split(input, ',')))[""]
  {
    var pieces := TrimAll(Split(input, ','));
    TrimmedPieces(Split(input, ','), ',');
    NonEmptyItems(pieces);
    NonEmpty(pieces)
  }

  /** A repeated piece comes back as often as it was typed. */
  lemma ParseCommaListKeepsRepeats(input: string)
    ensures multiset(ParseCommaList(input)) == multiset(TrimAll(Split(input, ',')))["" := 0]
  {
    NonEmptyKeepsRepeats(TrimAll(Split(input, ',')));
  }

  /** Dropping the empty pieces of trimmed, comma-free pieces leaves list items. */
  lemma {:induction false} NonEmptyItems(xs: seq<string>)
    requires forall j :: 0 <= j < |xs| ==> IsTrimmed(xs[j]) && ',' !in xs[j]
    ensures forall i :: 0 <= i < |NonEmpty(xs)| ==> IsListItem(NonEmpty(xs)[i])
  {
    if xs != [] {
      NonEmptyItems(xs[..|xs| - 1]);
    }
  }

  /** Trimming removes characters and adds none. */
  lemma TrimmedKeepsMissing(s: string, c: char)
    requires c !in s
    ensures c !in Trim(s)
  {
    var t := TrimStart(s);
    var u := TrimEnd(t);
    forall i | 0 <= i < |u|
      ensures u[i] != c
    {
      assert u[i] == t[i] == s[|s| - |t| + i];
    }
  }

  /** Blank input yields no items. */
  lemma ParseBlank(input: string)
    requires IsBlank(input)
    ensures ParseCommaList(input) == []
  {
    assert ',' !in input by {
      assert !IsWhitespace(',');
    }
    SplitWithoutSeparator(input, ',');
    BlankIffTrimEmpty(input);
    assert TrimAll([input]) == [""];
    assert NonEmpty([""]) == NonEmpty([""][..0]);
  }

  /** Trimming the pieces of a `', '`-join gives the items back. */
  lemma TrimJoinedPieces(items: seq<string>)
    requires items != [] && forall i :: 0 <= i < |items| ==> IsTrimmed(items[i])
    ensures TrimAll([items[0]] + Blanked(items[1..])) == items
  {
    var pieces := [items[0]] + Blanked(items[1..]);
    forall i | 0 <= i < |items|
      ensures Trim(pieces[i]) == items[i]
    {
      if i == 0 {
        TrimOfTrimmed(items[0]);
      } else {
        assert pieces[i] == " " + items[i];
        TrimAfterBlank(items[i]);
      }
    }
  }

  /** `items.join(', ')`, the edit form's label prefill, reads back as the same
      items. */
  lemma ParseCommaListOfJoin(items: seq<string>)
    requires forall i :: 0 <= i < |items| ==> IsListItem(items[i])
    ensures ParseCommaList(Join(items, ", ")) == items
  {
    if items == [] {
      ParseBlank("");
    } else {
      SplitOfCommaSpaceJoin(items);
      TrimJoinedPieces(items);
      NonEmptyOfFilled(items);
      var joined := Join(items, ", ");
      assert ParseCommaList(joined) == NonEmpty(TrimAll(Split(joined, ',')));
    }
  }

  /** Parsing is stable: the joined result of a parse parses to itself. */
  lemma ParseCommaListStable(input: string)
    ensures ParseCommaList(Join(ParseCommaList(input), ", ")) == ParseCommaList(input)
  {
    ParseCommaListOfJoin(ParseCommaList(input));
  }

  // ---------------------------------------------------------------------------
  // Assignees

  /** One entry of `parseAssignees`: the trimmed text before the first colon is
      the name, the trimmed text between the first and second colon the
      initials; a blank name drops the entry and blank or missing initials are
      derived from the name. */
  function ParseAssigneeEntry(entry: string): (r: Option<AssigneeInput>)
    ensures r.None? <==> Trim(Split(entry, ':')[0]) == ""
    ensures r.Some? ==> IsTrimmed(r.value.name) && r.value.name != "" && ':' !in r.value.name
                        && !IsBlank(r.value.initials)
  {
    var parts := Split(entry, ':');
    var namePart := Trim(parts[0]);
    if namePart == "" then None
    else
      TrimmedKeepsMissing(parts[0], ':');
      var initials := if |parts| > 1 && Trim(parts[1]) != "" then Trim(parts[1]) else GetInitials(namePart);
      InitialsNotBlank(namePart);
      assert !IsWhitespace(initials[0]);
      Some(AssigneeInput(namePart, initials))
  }

  /** The pieces of `name:initials` followed by nothing or by a further colon. */
  lemma SplitEntry(name: string, initials: string, tail: string)
    requires ':' !in name && ':' !in initials
    requires tail == "" || tail[0] == ':'
    ensures var parts := Split(name + ":" + initials + tail, ':');
            |parts| >= 2 && parts[0] == name && parts[1] == initials
  {
    var rest := Split(tail, ':');
    if tail == "" {
      assert rest == [""];
    } else {
      assert tail == [':'] + tail[1..];
      SplitAfterSeparator(tail[1..], ':');
    }
    assert rest[0] == "";
    SplitPrefix(initials, tail, ':');
    assert Split(initials + tail, ':')[0] == initials;
    SplitAfterSeparator(initials + tail, ':');
    SplitPrefix(name, ":" + (initials + tail), ':');
    Regroup(name, ":", initials, tail);
  }

  /** `"Name : XY"` gives the trimmed name and initials; anything after a second
      colon is ignored. */
  lemma EntryWithInitials(name: string, initials: string, tail: string)
    requires ':' !in name && ':' !in initials
    requires tail == "" || tail[0] == ':'
    requires !IsBlank(name) && !IsBlank(initials)
    ensures ParseAssigneeEntry(name + ":" + initials + tail) == Some(AssigneeInput(Trim(name), Trim(initials)))
  {
    SplitEntry(name, initials, tail);
    BlankIffTrimEmpty(name);
    BlankIffTrimEmpty(initials);
  }

  /** Blank initials after the colon fall back to the name's initials. */
  lemma EntryWithBlankInitials(name: string, initials: string)
    requires ':' !in name && Trim(name) != "" && IsBlank(initials)
    ensures ParseAssigneeEntry(name + ":" + initials) == Some(AssigneeInput(Trim(name), GetInitials(name)))
  {
    var entry := name + ":" + initials;
    assert ':' !in initials by {
      assert !IsWhitespace(':');
    }
    assert entry + "" == entry;
    SplitEntry(name, initials, "");
    BlankIffTrimEmpty(initials);
    InitialsOfTrimmed(name);
  }

  /** A name alone gets the initials derived from it. */
  lemma EntryWithoutInitials(name: string)
    requires ':' !in name && Trim(name) != ""
    ensures ParseAssigneeEntry(name) == Some(AssigneeInput(Trim(name), GetInitials(name)))
  {
    SplitWithoutSeparator(name, ':');
    InitialsOfTrimmed(name);
  }

  /** An entry with nothing before its first colon, such as `":AB"`, is dropped. */
  lemma EntryWithoutName(rest: string)
    ensures ParseAssigneeEntry(":" + rest) == None
  {
    SplitAfterSeparator(rest, ':');
    assert ":" + rest == [':'] + rest;
    TrimOfTrimmed("");
  }

  /** Each value wrapped as present. */
  function Wrapped<T>(values: seq<T>): (r: seq<Option<T>>)
    ensures |r| == |values| && forall k :: 0 <= k < |r| ==> r[k] == Some(values[k])
  {
    seq(|values|, k requires 0 <= k < |values| => Some(values[k]))
  }

  /** `.filter(Boolean)` on parse results: the values present, in order. As a
      subsequence of `xs` as long as the number of present results, it is all
      of them. */
  function Present<T(==)>(xs: seq<Option<T>>): (r: seq<T>)
    ensures |r| == |xs| - multiset(xs)[None]
    ensures IsSubsequence(Wrapped(r), xs)
  {
    if xs == [] then []
    else
      var init := Present(xs[..|xs| - 1]);
      assert xs == xs[..|xs| - 1] + [xs[|xs| - 1]];
      match xs[|xs| - 1]
      case None =>
        SubsequenceExtend(Wrapped(init), xs[..|xs| - 1], None);
        init
      case Some(x) =>
        assert Wrapped(init + [x]) == Wrapped(init) + [Some(x)];
        SubsequenceExtendBoth(Wrapped(init), xs[..|xs| - 1], Some(x));
        init + [x]
  }

  /** No present value is dropped. */
  lemma PresentKeepsAll<T>(xs: seq<Option<T>>)
    ensures forall j :: 0 <= j < |xs| && xs[j].Some? ==> xs[j].value in Present(xs)
  {
    forall j | 0 <= j < |xs| && xs[j].Some?
      ensures xs[j].value in Present(xs)
    {
      PresentKeeps(xs, j);
    }
  }

  lemma {:induction false} PresentKeeps<T>(xs: seq<Option<T>>, j: nat)
    requires j < |xs| && xs[j].Some?
    ensures xs[j].value in Present(xs)
  {
    var n := |xs| - 1;
    PresentSnoc(xs);
    if j < n {
      assert xs[..n][j] == xs[j];
      PresentKeeps(xs[..n], j);
    }
  }

  lemma PresentSnoc<T>(xs: seq<Option<T>>)
    requires xs != []
    ensures var n := |xs| - 1;
            Present(xs) == Present(xs[..n]) + (if xs[n].Some? then [xs[n].value] else [])
  {
  }

  /** When every result is present, all of them are kept. */
  lemma PresentAll<T>(xs: seq<Option<T>>, values: seq<T>)
    requires |xs| == |values| && forall i :: 0 <= i < |xs| ==> xs[i] == Some(values[i])
    ensures Present(xs) == values
  {
    var r := Present(xs);
    assert None !in xs;
    SubsequenceOfSameLength(Wrapped(r), xs);
    forall i | 0 <= i < |r|
      ensures r[i] == values[i]
    {
      assert Wrapped(r)[i] == xs[i];
    }
  }

  /** What the parser promises of an assignee: a trimmed, non-empty name and
      initials that are not blank. */
  predicate IsParsedAssignee(a: AssigneeInput) {
    IsTrimmed(a.name) && a.name != "" && !IsBlank(a.initials)
  }

  /** `.map(parseEntry)`. */
  function ParseEach(entries: seq<string>): (r: seq<Option<AssigneeInput>>)
    ensures |r| == |entries| && forall i :: 0 <= i < |r| ==> r[i] == ParseAssigneeEntry(entries[i])
    ensures forall i :: 0 <= i < |r| && r[i].Some? ==> IsParsedAssignee(r[i].value)
  {
    seq(|entries|, i requires 0 <= i < |entries| => ParseAssigneeEntry(entries[i]))
  }

  /** `.map(parseEntry).filter(Boolean)`: the entries that give an assignee, in order. */
  function ParseEntries(entries: seq<string>): (r: seq<AssigneeInput>)
    ensures forall i :: 0 <= i < |r| ==> IsParsedAssignee(r[i])
    ensures |r| == |entries| - multiset(ParseEach(entries))[None]
    ensures IsSubsequence(Wrapped(r), ParseEach(entries))
  {
    var parsed := ParseEach(entries);
    PresentParsed(parsed);
    Present(parsed)
  }

  lemma {:induction false} PresentParsed(xs: seq<Option<AssigneeInput>>)
    requires forall i :: 0 <= i < |xs| && xs[i].Some? ==> IsParsedAssignee(xs[i].value)
    ensures forall i :: 0 <= i < |Present(xs)| ==> IsParsedAssignee(Present(xs)[i])
  {
    if xs != [] {
      PresentParsed(xs[..|xs| - 1]);
    }
  }

  /** `parseAssignees`: the comma list, each entry read as an assignee. */
  function ParseAssignees(input: string): (r: seq<AssigneeInput>)
    ensures forall i :: 0 <= i < |r| ==> IsParsedAssignee(r[i])
    ensures var entries := ParseCommaList(input);
            && |r| == |entries| - multiset(ParseEach(entries))[None]
            && IsSubsequence(Wrapped(r), ParseEach(entries))
  {
    ParseEntries(ParseCommaList(input))
  }

  /** Every comma-separated entry that reads as an assignee is returned. */
  lemma ParseAssigneesKeepsEntries(input: string)
    ensures var entries := ParseCommaList(input);
            forall j :: 0 <= j < |entries| && ParseAssigneeEntry(entries[j]).Some? ==>
              ParseAssigneeEntry(entries[j]).value in ParseAssignees(input)
  {
    var entries := ParseCommaList(input);
    var parsed := ParseEach(entries);
    PresentKeepsAll(parsed);
    assert forall j :: 0 <= j < |entries| ==> parsed[j] == ParseAssigneeEntry(entries[j]);
  }

  // ---------------------------------------------------------------------------
  // Edit form prefill

  /** The edit form's label field: `labels.join(', ')`. */
  function LabelsPrefill(labels: seq<string>): (r: string)
    ensures (forall i :: 0 <= i < |labels| ==> IsListItem(labels[i])) ==> ParseCommaList(r) == labels
  {
    if forall i :: 0 <= i < |labels| ==> IsListItem(labels[i]) then
      ParseCommaListOfJoin(labels);
      Join(labels, ", ")
    else
      Join(labels, ", ")
  }

  /** `name:initials`. */
  function AssigneeEntry(a: TaskAssignee): string {
    a.name + ":" + a.initials
  }

  function AssigneeEntries(assignees: seq<TaskAssignee>): (r: seq<string>)
    ensures |r| == |assignees| && forall i :: 0 <= i < |r| ==> r[i] == AssigneeEntry(assignees[i])
  {
    seq(|assignees|, i requires 0 <= i < |assignees| => AssigneeEntry(assignees[i]))
  }

  /** The edit form's assignee field: the entries joined with `', '`. */
  function AssigneesPrefill(assignees: seq<TaskAssignee>): (r: string)
    ensures (forall i :: 0 <= i < |assignees| ==> PrefillableAssignee(assignees[i])) ==>
              ParseCommaList(r) == AssigneeEntries(assignees)
  {
    var entries := AssigneeEntries(assignees);
    if forall i :: 0 <= i < |assignees| ==> PrefillableAssignee(assignees[i]) then
      assert forall i :: 0 <= i < |entries| ==> IsListItem(entries[i]) by {
        forall i | 0 <= i < |entries|
          ensures IsListItem(entries[i])
        {
          EntryIsListItem(assignees[i]);
        }
      }
      ParseCommaListOfJoin(entries);
      Join(entries, ", ")
    else
      Join(entries, ", ")
  }

  /** The name and initials of each assignee, as the parser returns them. */
  function AsInputs(assignees: seq<TaskAssignee>): (r: seq<AssigneeInput>)
    ensures |r| == |assignees| &&
            forall i :: 0 <= i < |r| ==> r[i] == AssigneeInput(assignees[i].name, assignees[i].initials)
  {
    seq(|assignees|, i requires 0 <= i < |assignees| => AssigneeInput(assignees[i].name, assignees[i].initials))
  }

  /** A field the prefill can carry through: trimmed, non-empty, with no comma
      and no colon. */
  predicate IsEntryField(s: string) {
    IsListItem(s) && ':' !in s
  }

  predicate PrefillableAssignee(a: TaskAssignee) {
    IsEntryField(a.name) && IsEntryField(a.initials)
  }

  lemma EntryIsListItem(a: TaskAssignee)
    requires PrefillableAssignee(a)
    ensures IsListItem(AssigneeEntry(a))
  {
    var e := AssigneeEntry(a);
    assert e[0] == a.name[0];
    assert e[|e| - 1] == a.initials[|a.initials| - 1];
    assert forall i :: 0 <= i < |e| ==> e[i] in a.name || e[i] == ':' || e[i] in a.initials by {
      forall i | 0 <= i < |e|
        ensures e[i] in a.name || e[i] == ':' || e[i] in a.initials
      {
        if i < |a.name| {
          assert e[i] == a.name[i];
        } else if i > |a.name| {
          assert e[i] == a.initials[i - |a.name| - 1];
        }
      }
    }
  }

  /** One prefilled entry reads back as the stored name and initials. */
  lemma EntryRoundTrip(a: TaskAssignee)
    requires PrefillableAssignee(a)
    ensures ParseAssigneeEntry(AssigneeEntry(a)) == Some(AssigneeInput(a.name, a.initials))
  {
    assert AssigneeEntry(a) + "" == AssigneeEntry(a);
    SplitEntry(a.name, a.initials, "");
    TrimOfTrimmed(a.name);
    TrimOfTrimmed(a.initials);
  }

  lemma ParseEntriesOfPrefill(assignees: seq<TaskAssignee>)
    requires forall i :: 0 <= i < |assignees| ==> PrefillableAssignee(assignees[i])
    ensures ParseEntries(AssigneeEntries(assignees)) == AsInputs(assignees)
  {
    var entries := AssigneeEntries(assignees);
    var parsed := ParseEach(entries);
    var inputs := AsInputs(assignees);
    forall i | 0 <= i < |entries|
      ensures parsed[i] == Some(inputs[i])
    {
      EntryRoundTrip(assignees[i]);
    }
    PresentAll(parsed, inputs);
  }

  /** The stored assignees come back, name and initials, from the prefilled
      assignee field. */
  lemma AssigneesPrefillRoundTrip(assignees: seq<TaskAssignee>)
    requires forall i :: 0 <= i < |assignees| ==> PrefillableAssignee(assignees[i])
    ensures ParseAssignees(AssigneesPrefill(assignees)) == AsInputs(assignees)
  {
    ParseEntriesOfPrefill(assignees);
  }

  /** The edit form's date field: the first ten characters of the stored date. */
  function DueDatePrefill(dueDate: string): (r: string)
    ensures |r| <= 10 && |r| <= |dueDate| && r == dueDate[..|r|]
    ensures |dueDate| >= 10 ==> |r| == 10
    ensures |dueDate| <= 10 ==> r == dueDate
  {
    dueDate[..Min(10, |dueDate|)]
  }

  /** Prefilling a prefilled date changes nothing. */
  lemma DueDatePrefillIdempotent(dueDate: string)
    ensures DueDatePrefill(DueDatePrefill(dueDate)) == DueDatePrefill(dueDate)
  {
  }

  // ---------------------------------------------------------------------------
  // Payloads

  /** The submitted form: `formData.get` gives null (None) for a missing field. */
  datatype TaskFormData = TaskFormData(
    title: Option<string>,
    description: Option<string>,
    dueDate: Option<string>,
    priority: Option<string>,
    columnId: Option<string>,
    labels: Option<string>,
    assignees: Option<string>)

  datatype ColumnOption = ColumnOption(id: string, name: string)

  /** `String(formData.get(field) ?? '').trim()`. */
  function FieldText(value: Option<string>): (r: string)
    ensures IsTrimmed(r)
  {
    Trim(value.GetOr(""))
  }

  /** `dueDate || undefined`. */
  function OptionalDate(dueDate: string): (r: Option<string>)
    ensures r.None? <==> dueDate == ""
    ensures r.Some? ==> r.value == dueDate
  {
    if dueDate == "" then None else Some(dueDate)
  }

  /** The create form's `handleSubmit` payload: texts trimmed, a missing
      priority is `medium`, a missing column is the first offered column (or
      "" when none is offered), an empty date is left out, and labels and
      assignees are parsed from their fields. */
  function CreateTaskPayload(boardId: string, columns: seq<ColumnOption>, form: TaskFormData): (r: TaskCreateInput)
    ensures r.boardId == boardId
    ensures r.title == FieldText(form.title) && r.description == Some(FieldText(form.description))
    ensures form.priority.None? ==> r.priority == Some("medium")
    ensures form.priority.Some? ==> r.priority == form.priority
    ensures form.columnId.Some? ==> r.columnId == form.columnId.value
    ensures form.columnId.None? && columns != [] ==> r.columnId == columns[0].id
    ensures form.columnId.None? && columns == [] ==> r.columnId == ""
    ensures r.dueDate.None? <==> FieldText(form.dueDate) == ""
    ensures r.dueDate.Some? ==> r.dueDate.value == FieldText(form.dueDate)
    ensures r.labels == Some(ParseCommaList(form.labels.GetOr("")))
    ensures r.assignees == Some(ParseAssignees(form.assignees.GetOr("")))
  {
    var columnId := if form.columnId.Some? then form.columnId.value
                    else if columns != [] then columns[0].id
                    else "";
    TaskCreateInput(boardId, columnId, FieldText(form.title), Some(FieldText(form.description)),
                    OptionalDate(FieldText(form.dueDate)), Some(form.priority.GetOr("medium")),
                    Some(ParseCommaList(form.labels.GetOr(""))), Some(ParseAssignees(form.assignees.GetOr(""))))
  }

  /** The edit form's `handleSubmit` payload for `task`: the same fields but
      the column, each always present. */
  function EditTaskPayload(boardId: string, task: Task, form: TaskFormData): (r: TaskUpdateInput)
    ensures r.boardId == boardId && r.taskId == task.id
    ensures r.title == Some(FieldText(form.title)) && r.description == Some(FieldText(form.description))
    ensures r.priority == Some(form.priority.GetOr("medium"))
    ensures r.dueDate.None? <==> FieldText(form.dueDate) == ""
    ensures r.dueDate.Some? ==> r.dueDate.value == FieldText(form.dueDate)
    ensures r.labels == Some(ParseCommaList(form.labels.GetOr("")))
    ensures r.assignees == Some(ParseAssignees(form.assignees.GetOr("")))
  {
    TaskUpdateInput(boardId, task.id, Some(FieldText(form.title)), Some(FieldText(form.description)),
                    OptionalDate(FieldText(form.dueDate)), Some(form.priority.GetOr("medium")),
                    Some(ParseCommaList(form.labels.GetOr(""))), Some(ParseAssignees(form.assignees.GetOr(""))))
  }

  /** Parsed labels and assignees never trip the schema's list checks. */
  lemma ParsedListsAreFilled(labels: string, assignees: string)
    ensures AllFilled(Some(ParseCommaList(labels)))
    ensures AssigneesFilled(Some(ParseAssignees(assignees)))
  {
    ItemsAreFilled(ParseCommaList(labels));
    ParsedAssigneesAreFilled(ParseAssignees(assignees));
  }

  lemma ItemsAreFilled(items: seq<string>)
    requires forall i :: 0 <= i < |items| ==> IsListItem(items[i])
    ensures AllFilled(Some(items))
  {
    forall i | 0 <= i < |items|
      ensures !IsBlank(items[i])
    {
      assert !IsWhitespace(items[i][0]);
    }
  }

  lemma ParsedAssigneesAreFilled(xs: seq<AssigneeInput>)
    requires forall i :: 0 <= i < |xs| ==> IsParsedAssignee(xs[i])
    ensures AssigneesFilled(Some(xs))
  {
    forall i | 0 <= i < |xs|
      ensures !IsBlank(xs[i].name)
    {
      assert !IsWhitespace(xs[i].name[0]);
    }
  }

  /** The create form's submission passes `taskCreateSchema` exactly when its
      board, column and title are filled in, its date (if any) is valid and its
      priority (if chosen) is one of the four. */
  lemma CreatePayloadAccepted(boardId: string, columns: seq<ColumnOption>, form: TaskFormData, dateOk: string -> bool)
    ensures var p := CreateTaskPayload(boardId, columns, form);
            ParseTaskCreate(p, dateOk).Success? <==>
              && !IsBlank(boardId) && !IsBlank(p.columnId) && FieldText(form.title) != ""
              && HasValidDate(p.dueDate, dateOk)
              && ParsePriority(form.priority.GetOr("medium")).Some?
  {
    var p := CreateTaskPayload(boardId, columns, form);
    ParsedListsAreFilled(form.labels.GetOr(""), form.assignees.GetOr(""));
    TrimOfTrimmed(FieldText(form.title));
    BlankIffTrimEmpty(FieldText(form.title));
  }

  /** The edit form opened on a task: each field shows the stored value. */
  function EditFormDefaults(task: Task): (r: TaskFormData)
    ensures r.title == Some(task.title) && r.description == Some(task.description)
    ensures r.dueDate == Some(DueDatePrefill(task.dueDate))
    ensures r.priority == Some(PriorityName(task.priority))
    ensures r.labels == Some(LabelsPrefill(task.labels))
    ensures r.assignees == Some(AssigneesPrefill(task.assignees))
  {
    TaskFormData(Some(task.title), Some(task.description), Some(DueDatePrefill(task.dueDate)),
                 Some(PriorityName(task.priority)), None,
                 Some(LabelsPrefill(task.labels)), Some(AssigneesPrefill(task.assignees)))
  }

  /** Submitting the edit form unchanged sends back the task's priority, labels
      and assignees as stored, provided the labels and the assignees' fields are
      trimmed, non-empty and free of the separators. */
  lemma UnchangedEditRoundTrip(boardId: string, task: Task)
    requires forall i :: 0 <= i < |task.labels| ==> IsListItem(task.labels[i])
    requires forall i :: 0 <= i < |task.assignees| ==> PrefillableAssignee(task.assignees[i])
    ensures var p := EditTaskPayload(boardId, task, EditFormDefaults(task));
            && p.labels == Some(task.labels)
            && p.assignees == Some(AsInputs(task.assignees))
            && p.priority.Some? && ParsePriority(p.priority.value) == Some(task.priority)
  {
    AssigneesPrefillRoundTrip(task.assignees);
    PriorityRoundTrip(task.priority);
  }
}
