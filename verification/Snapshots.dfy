/**
 * Memory snapshots, the update that writes one back, and the field merge
 * (src/evolution/memory-evolution.types.ts, default-memory-merge-policy.ts).
 */
module Snapshots {
  import opened Outcomes
  import opened JsStrings

  datatype Snapshot = Snapshot(
    title: string, project: string, content: string, summary: string,
    tags: seq<string>, keywords: seq<string>, category: string, memoryType: string,
    importance: int, language: string, notes: string,
    favorite: bool, archived: bool, level: string)

  /** A memory row: the snapshot fields, and what no snapshot records. */
  datatype Memory = Memory(
    id: string, title: string, project: string, content: string, summary: string,
    tags: seq<string>, keywords: seq<string>, category: string, memoryType: string,
    importance: int, language: string, notes: string,
    favorite: bool, archived: bool, level: string, slug: string)

  /** A partial update; None leaves the field as it is. */
  datatype UpdateData = UpdateData(
    title: Option<string>, project: Option<string>, content: Option<string>, summary: Option<string>,
    tags: Option<seq<string>>, keywords: Option<seq<string>>, category: Option<string>, memoryType: Option<string>,
    importance: Option<int>, language: Option<string>, notes: Option<string>,
    favorite: Option<bool>, archived: Option<bool>, level: Option<string>, slug: Option<string>)

  function ToMemorySnapshot(m: Memory): Snapshot {
    Snapshot(m.title, m.project, m.content, m.summary, m.tags, m.keywords, m.category, m.memoryType,
             m.importance, m.language, m.notes, m.favorite, m.archived, m.level)
  }

  function SnapshotToUpdateData(s: Snapshot): UpdateData {
    UpdateData(Some(s.title), Some(s.project), Some(s.content), Some(s.summary),
               Some(s.tags), Some(s.keywords), Some(s.category), Some(s.memoryType),
               Some(s.importance), Some(s.language), Some(s.notes),
               Some(s.favorite), Some(s.archived), Some(s.level), None)
  }

  function OrElse<T>(incoming: Option<T>, existing: T): T {
    match incoming
    case None => existing
    case Some(v) => v
  }

  /** A row as findById reads it: that query selects an empty text for the content. */
  function WithoutBody(m: Memory): Memory {
    m.(content := "")
  }

  /** Each given field replaces the one that was read. */
  function ApplyUpdate(m: Memory, d: UpdateData): Memory {
    Memory(m.id, OrElse(d.title, m.title), OrElse(d.project, m.project), OrElse(d.content, m.content),
           OrElse(d.summary, m.summary), OrElse(d.tags, m.tags), OrElse(d.keywords, m.keywords),
           OrElse(d.category, m.category), OrElse(d.memoryType, m.memoryType),
           OrElse(d.importance, m.importance), OrElse(d.language, m.language), OrElse(d.notes, m.notes),
           OrElse(d.favorite, m.favorite), OrElse(d.archived, m.archived), OrElse(d.level, m.level),
           OrElse(d.slug, m.slug))
  }

  /** Writing a snapshot back and taking one again gives the same snapshot; id and slug stay. */
  lemma SnapshotRoundTrip(m: Memory, s: Snapshot)
    ensures ToMemorySnapshot(ApplyUpdate(m, SnapshotToUpdateData(s))) == s
    ensures ApplyUpdate(m, SnapshotToUpdateData(s)).id == m.id
    ensures ApplyUpdate(m, SnapshotToUpdateData(s)).slug == m.slug
    ensures ApplyUpdate(m, SnapshotToUpdateData(ToMemorySnapshot(m))) == m
  {
  }

  // ---------------------------------------------------------------- ordered sets

  function Insert(s: seq<string>, x: string): seq<string> {
    if x in s then s else s + [x]
  }

  function AddAll(s: seq<string>, xs: seq<string>): seq<string> {
    if xs == [] then s else Insert(AddAll(s, xs[..|xs| - 1]), xs[|xs| - 1])
  }

  /** The spread of a Set built from a list: first occurrences, in order. */
  function Distinct(xs: seq<string>): seq<string> {
    AddAll([], xs)
  }

  predicate NoRepeats(xs: seq<string>) {
    forall i, j :: 0 <= i < j < |xs| ==> xs[i] != xs[j]
  }

  lemma {:induction false} AddAllAppend(s: seq<string>, a: seq<string>, b: seq<string>)
    ensures AddAll(s, a + b) == AddAll(AddAll(s, a), b)
  {
    if b == [] {
      assert a + b == a;
    } else {
      var n := |b| - 1;
      assert (a + b)[..|a + b| - 1] == a + b[..n];
      AddAllAppend(s, a, b[..n]);
    }
  }

  /** AddAll keeps what is there as a prefix, adds every new element once, and nothing else. */
  lemma {:induction false} AddAllMeaning(s: seq<string>, xs: seq<string>)
    ensures s <= AddAll(s, xs)
    ensures forall x :: x in AddAll(s, xs) <==> x in s || x in xs
    ensures NoRepeats(s) ==> NoRepeats(AddAll(s, xs))
  {
    if xs != [] {
      SplitLast(xs);
      AddAllMeaning(s, xs[..|xs| - 1]);
    }
  }

  lemma {:induction false} AddDistinct(s: seq<string>, xs: seq<string>)
    ensures AddAll(s, Distinct(xs)) == AddAll(s, xs)
  {
    if xs != [] {
      var n := |xs| - 1;
      var front := xs[..n];
      AddDistinct(s, front);
      AddAllMeaning([], front);
      AddAllMeaning(s, front);
      if xs[n] !in Distinct(front) {
        assert Distinct(xs)[..|Distinct(xs)| - 1] == Distinct(front);
      }
    }
  }

  lemma {:induction false} AddFresh(s: seq<string>, xs: seq<string>)
    requires NoRepeats(s + xs)
    ensures AddAll(s, xs) == s + xs
  {
    if xs != [] {
      var n := |xs| - 1;
      assert s + xs[..n] == (s + xs)[..|s| + n];
      AddFresh(s, xs[..n]);
      forall i | 0 <= i < |s| + n ensures (s + xs[..n])[i] != xs[n] {
        assert (s + xs)[i] != (s + xs)[|s| + n];
      }
      assert s + xs[..n] + [xs[n]] == s + xs;
    } else {
      assert s + xs == s;
    }
  }

  /** A list is its own set exactly when nothing repeats. */
  lemma DistinctFixedExactly(xs: seq<string>)
    ensures Distinct(xs) == xs <==> NoRepeats(xs)
    ensures Distinct(xs + xs) == xs <==> NoRepeats(xs)
  {
    AddAllMeaning([], xs);
    AddAllAppend([], xs, xs);
    AddDistinct(Distinct(xs), xs);
    AddMembers(Distinct(xs), xs);
    if NoRepeats(xs) {
      assert [] + xs == xs;
      AddFresh([], xs);
    }
  }

  lemma {:induction false} AddMembers(s: seq<string>, xs: seq<string>)
    requires forall x :: x in xs ==> x in s
    ensures AddAll(s, xs) == s
  {
    if xs != [] {
      AddMembers(s, xs[..|xs| - 1]);
    }
  }

  lemma UnionAssociative(a: seq<string>, b: seq<string>, c: seq<string>)
    ensures Distinct(Distinct(a + b) + c) == Distinct(a + Distinct(b + c))
    ensures Distinct(a + Distinct(b + c)) == Distinct(a + b + c)
  {
    hide AddAll;
    assert a + b + c == a + (b + c);
    AddAllAppend([], Distinct(a + b), c);
    AddDistinct([], a + b);
    AddAllAppend([], a + b, c);
    AddAllAppend([], a, Distinct(b + c));
    AddDistinct(Distinct(a), b + c);
    AddAllAppend([], a, b + c);
  }

  // ---------------------------------------------------------------- the merge policy

  function PreferNonEmpty(incoming: string, base: string): string {
    if |Trim(incoming)| > 0 then incoming else base
  }

  function Max(a: int, b: int): int {
    if a >= b then a else b
  }

  /** Fields that are not named keep the base's value. */
  function Merge(base: Snapshot, incoming: Snapshot): Snapshot {
    base.(title := PreferNonEmpty(incoming.title, base.title),
          content := PreferNonEmpty(incoming.content, base.content),
          summary := PreferNonEmpty(incoming.summary, base.summary),
          notes := PreferNonEmpty(incoming.notes, base.notes),
          tags := Distinct(base.tags + incoming.tags),
          keywords := Distinct(base.keywords + incoming.keywords),
          importance := Max(base.importance, incoming.importance))
  }

  /** Merging can be regrouped. */
  lemma MergeAssociative(a: Snapshot, b: Snapshot, c: Snapshot)
    ensures Merge(Merge(a, b), c) == Merge(a, Merge(b, c))
  {
    UnionAssociative(a.tags, b.tags, c.tags);
    UnionAssociative(a.keywords, b.keywords, c.keywords);
  }

  /** Merging a snapshot with itself is harmless exactly when its lists repeat nothing. */
  lemma MergeIdempotentExactly(s: Snapshot)
    ensures Merge(s, s) == s <==> NoRepeats(s.tags) && NoRepeats(s.keywords)
  {
    DistinctFixedExactly(s.tags);
    DistinctFixedExactly(s.keywords);
  }

  /** A tag that stands twice is merged away. */
  lemma RepeatedTagExample(s: Snapshot)
    requires s.tags == ["a", "a"]
    ensures Merge(s, s).tags == ["a"]
  {
    DistinctFixedExactly(["a"]);
    assert s.tags == ["a"] + ["a"];
    AddAllAppend([], s.tags, s.tags);
    AddMembers(["a"], s.tags);
  }

  lemma UnionMeaning(a: seq<string>, b: seq<string>)
    ensures forall x :: x in Distinct(a + b) <==> x in a || x in b
    ensures NoRepeats(Distinct(a + b)) && Distinct(a) <= Distinct(a + b)
    ensures NoRepeats(a) ==> a <= Distinct(a + b)
  {
    AddAllMeaning([], a + b);
    AddAllAppend([], a, b);
    AddAllMeaning(Distinct(a), b);
    DistinctFixedExactly(a);
  }

  /** Nothing listed is lost, nothing is invented, and the base's order comes first. */
  lemma MergeKeepsLists(base: Snapshot, incoming: Snapshot)
    ensures var m := Merge(base, incoming);
            && (forall t :: t in m.tags <==> t in base.tags || t in incoming.tags)
            && (forall k :: k in m.keywords <==> k in base.keywords || k in incoming.keywords)
            && NoRepeats(m.tags) && NoRepeats(m.keywords)
            && Distinct(base.tags) <= m.tags && Distinct(base.keywords) <= m.keywords
            && (NoRepeats(base.tags) ==> base.tags <= m.tags)
  {
    hide Distinct, NoRepeats;
    UnionMeaning(base.tags, incoming.tags);
    UnionMeaning(base.keywords, incoming.keywords);
  }

  ghost predicate TextTaken(merged: string, base: string, incoming: string) {
    merged == if Blank(incoming) then base else incoming
  }

  /** Exactly the entries of both lists, each once, the base's in their order first. */
  ghost predicate ListTaken(merged: seq<string>, base: seq<string>, incoming: seq<string>) {
    && (forall x :: x in merged <==> x in base || x in incoming) && NoRepeats(merged)
    && Distinct(base) <= merged && (NoRepeats(base) ==> base <= merged)
  }

  /** What the policy promises of a merge. */
  ghost predicate MergedOf(m: Snapshot, base: Snapshot, incoming: Snapshot) {
    && TextTaken(m.title, base.title, incoming.title) && TextTaken(m.content, base.content, incoming.content)
    && TextTaken(m.summary, base.summary, incoming.summary) && TextTaken(m.notes, base.notes, incoming.notes)
    && ListTaken(m.tags, base.tags, incoming.tags) && ListTaken(m.keywords, base.keywords, incoming.keywords)
    && m.importance >= base.importance && m.importance >= incoming.importance
    && (m.importance == base.importance || m.importance == incoming.importance)
    && SameContext(m, base)
  }

  lemma MergeKeepsPromise(base: Snapshot, incoming: Snapshot)
    ensures MergedOf(Merge(base, incoming), base, incoming)
  {
    UnionMeaning(base.tags, incoming.tags);
    UnionMeaning(base.keywords, incoming.keywords);
    hide Distinct, NoRepeats, Trim;
  }

  /** An update sets the fields that it gives and keeps the others. */
  lemma GivenFieldsAreSet(m: Memory, d: UpdateData)
    ensures var r := ApplyUpdate(m, d);
            && r.id == m.id
            && Sets(d.title, r.title, m.title) && Sets(d.project, r.project, m.project) && Sets(d.content, r.content, m.content)
            && Sets(d.summary, r.summary, m.summary) && Sets(d.tags, r.tags, m.tags) && Sets(d.keywords, r.keywords, m.keywords)
            && Sets(d.category, r.category, m.category) && Sets(d.memoryType, r.memoryType, m.memoryType)
            && Sets(d.importance, r.importance, m.importance) && Sets(d.language, r.language, m.language)
            && Sets(d.notes, r.notes, m.notes) && Sets(d.favorite, r.favorite, m.favorite)
            && Sets(d.archived, r.archived, m.archived) && Sets(d.level, r.level, m.level) && Sets(d.slug, r.slug, m.slug)
  {
  }

  ghost predicate Sets<T(!new)>(given: Option<T>, after: T, before: T) {
    (given.None? ==> after == before) && forall x :: given == Some(x) ==> after == x
  }

  /** Any way of bracketing a list of merges. */
  datatype MergeTree = Leaf(snapshot: Snapshot) | Node(left: MergeTree, right: MergeTree)

  ghost function Leaves(t: MergeTree): (s: seq<Snapshot>)
    ensures |s| > 0
  {
    match t
    case Leaf(s) => [s]
    case Node(l, r) => Leaves(l) + Leaves(r)
  }

  ghost function Evaluate(t: MergeTree): Snapshot {
    match t
    case Leaf(s) => s
    case Node(l, r) => Merge(Evaluate(l), Evaluate(r))
  }

  ghost function MergeInOrder(s: seq<Snapshot>): Snapshot
    requires |s| > 0
  {
    if |s| == 1 then s[0] else Merge(MergeInOrder(s[..|s| - 1]), s[|s| - 1])
  }

  lemma {:induction false} MergeSplit(a: seq<Snapshot>, b: seq<Snapshot>)
    requires |a| > 0 && |b| > 0
    ensures MergeInOrder(a + b) == Merge(MergeInOrder(a), MergeInOrder(b))
    decreases |b|
  {
    hide Merge;
    var n := |b| - 1;
    assert (a + b)[..|a + b| - 1] == a + b[..n] && (a + b)[|a + b| - 1] == b[n];
    if n == 0 {
      assert a + b[..n] == a;
    } else {
      MergeSplit(a, b[..n]);
      MergeAssociative(MergeInOrder(a), MergeInOrder(b[..n]), b[n]);
    }
  }

  /** The bracketing does not matter: only the order of the snapshots does. */
  lemma {:induction false} BracketingIrrelevant(t: MergeTree)
    ensures Evaluate(t) == MergeInOrder(Leaves(t))
  {
    match t
    case Leaf(_) =>
    case Node(l, r) =>
      BracketingIrrelevant(l);
      BracketingIrrelevant(r);
      MergeSplit(Leaves(l), Leaves(r));
  }

  datatype TextField = Title | Content | Summary | Notes

  function TextOf(s: Snapshot, field: TextField): string {
    match field
    case Title => s.title
    case Content => s.content
    case Summary => s.summary
    case Notes => s.notes
  }

  /** The text at `i` won: everything later is blank, and it is not blank itself unless it was first. */
  ghost predicate WinsAt(s: seq<Snapshot>, field: TextField, i: nat, text: string) {
    && i < |s| && TextOf(s[i], field) == text
    && (i == 0 || !Blank(TextOf(s[i], field)))
    && forall j :: i < j < |s| ==> Blank(TextOf(s[j], field))
  }

  lemma TextPreferred(base: Snapshot, incoming: Snapshot, field: TextField)
    ensures TextOf(Merge(base, incoming), field) ==
              if Blank(TextOf(incoming, field)) then TextOf(base, field) else TextOf(incoming, field)
  {
    hide Trim, Distinct;
  }

  /** Over any list of merges the last non-blank text wins, the first one if all later ones are blank. */
  lemma {:induction false} LastNonBlankTextWins(s: seq<Snapshot>, field: TextField) returns (i: nat)
    requires |s| > 0
    ensures WinsAt(s, field, i, TextOf(MergeInOrder(s), field))
  {
    hide Merge, Blank, TextOf;
    var n := |s| - 1;
    i := n;
    if n > 0 {
      TextPreferred(MergeInOrder(s[..n]), s[n], field);
      if Blank(TextOf(s[n], field)) {
        i := LastNonBlankTextWins(s[..n], field);
        assert WinsAt(s[..n], field, i, TextOf(MergeInOrder(s[..n]), field));
        forall j | i < j < |s| ensures Blank(TextOf(s[j], field)) {
          if j < n {
            assert s[..n][j] == s[j];
          }
        }
      }
    }
  }

  /** Everything the policy does not name: project, flags, level, category, type and language. */
  ghost predicate SameContext(a: Snapshot, b: Snapshot) {
    && a.project == b.project && a.category == b.category && a.memoryType == b.memoryType
    && a.language == b.language && a.favorite == b.favorite && a.archived == b.archived && a.level == b.level
  }

  /** Over any list of merges importance is the maximum and the context is the first snapshot's. */
  lemma {:induction false} ImportanceIsMaximal(s: seq<Snapshot>) returns (i: nat)
    requires |s| > 0
    ensures i < |s| && MergeInOrder(s).importance == s[i].importance
    ensures forall j :: 0 <= j < |s| ==> s[j].importance <= MergeInOrder(s).importance
    ensures SameContext(MergeInOrder(s), s[0])
  {
    hide Trim, Distinct;
    var n := |s| - 1;
    i := n;
    if n > 0 {
      var k := ImportanceIsMaximal(s[..n]);
      assert forall j :: 0 <= j < n ==> s[..n][j] == s[j];
      if s[n].importance < MergeInOrder(s[..n]).importance {
        i := k;
      }
    }
  }
}
