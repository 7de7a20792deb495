/**
 * Memory evolution: an append-only version history with a head counter, restore and merge
 * (src/evolution/memory-evolution-coordinator.ts, memory-evolution.service.ts), under the
 * operations of src/services/memory.service.ts.
 */
module Evolution {
  import opened Outcomes
  import opened Snapshots

  /** The memory table, the version store and the head store. */
  datatype State = State(memories: map<string, Memory>, versions: map<(string, nat), Snapshot>, heads: map<string, nat>)

  const EMPTY := State(map[], map[], map[])

  function Head(s: State, id: string): nat {
    if id in s.heads then s.heads[id] else 0
  }

  /** Versions of every memory are numbered 1..head with no gap and nothing beyond. */
  ghost predicate Gapless(s: State) {
    forall id: string, n: nat :: (id, n) in s.versions <==> 1 <= n <= Head(s, id)
  }

  /** Every state the store can show for a memory: its versions in order, then the row itself. */
  ghost function Timeline(s: State, id: string): (t: seq<Snapshot>)
    requires Gapless(s) && id in s.memories
    ensures |t| == Head(s, id) + 1
  {
    seq(Head(s, id), k requires 0 <= k < Head(s, id) => s.versions[(id, k + 1)]) + [ToMemorySnapshot(s.memories[id])]
  }

  // ---------------------------------------------------------------- the two hooks

  /** INSERT ... ON CONFLICT DO NOTHING with version 0. */
  function InitHead(s: State, id: string): State {
    if id in s.heads then s else s.(heads := s.heads[id := 0])
  }

  /** Append the previous state as version head + 1, then increment; a taken number is refused. */
  function RecordBefore(s: State, id: string, before: Memory): Option<State> {
    var ready := InitHead(s, id);
    var next := ready.heads[id] + 1;
    if (id, next) in ready.versions then None
    else Some(ready.(versions := ready.versions[(id, next) := ToMemorySnapshot(before)],
                     heads := ready.heads[id := next]))
  }

  // ---------------------------------------------------------------- operations

  datatype Op =
    | Create(memory: Memory)
    | Update(id: string, data: UpdateData)
    | Restore(id: string, version: nat)
    | MergeWithVersion(id: string, base: nat, incoming: nat)
    | MergeWithCurrent(id: string, base: nat)
    | ToggleFavorite(id: string)
    | Archive(id: string, archived: bool)
    | DirectWrite(id: string, data: UpdateData)
    | Delete(id: string)

  function TargetOf(op: Op): string {
    if op.Create? then op.memory.id else op.id
  }

  /** Operations that record a version before they write. */
  predicate Records(op: Op) {
    op.Update? || op.Restore? || op.MergeWithVersion? || op.MergeWithCurrent?
  }

  /** Operations that write to the row without a version: the two flags, and jobs that write columns directly. */
  predicate Silent(op: Op) {
    op.ToggleFavorite? || op.Archive? || op.DirectWrite?
  }

  /** What a recording operation writes; None when a version it names is missing. */
  function Written(s: State, op: Op): Option<UpdateData>
    requires Records(op) && op.id in s.memories
  {
    match op
    case Update(_, data) => Some(data)
    case Restore(id, n) =>
      if (id, n) in s.versions then Some(SnapshotToUpdateData(s.versions[(id, n)])) else None
    case MergeWithVersion(id, b, i) =>
      if (id, b) in s.versions && (id, i) in s.versions
      then Some(SnapshotToUpdateData(Merge(s.versions[(id, b)], s.versions[(id, i)]))) else None
    case MergeWithCurrent(id, b) =>
      if (id, b) in s.versions
      then Some(SnapshotToUpdateData(Merge(s.versions[(id, b)], ToMemorySnapshot(s.memories[id])))) else None
  }

  /** The row that is handed to the hook: an ordinary update has it without its body, restore and merge load it with. */
  function Loaded(m: Memory, op: Op): Memory {
    if op.Update? then WithoutBody(m) else m
  }

  /** The row after a silent operation. */
  function Overwritten(m: Memory, op: Op): Memory
    requires Silent(op)
  {
    match op
    case ToggleFavorite(_) => m.(favorite := !m.favorite)
    case Archive(_, archived) => m.(archived := archived)
    case DirectWrite(_, data) => ApplyUpdate(m, data)
  }

  /** One operation; None when it is refused, and then nothing has changed. */
  function Step(s: State, op: Op): (next: Option<State>) {
    var id := TargetOf(op);
    if op.Create? then
      if id in s.memories then None
      else Some(InitHead(s.(memories := s.memories[id := op.memory]), id))
    else if id !in s.memories then None
    else if Records(op) then
      var data :- Written(s, op);
      var recorded :- RecordBefore(s, id, Loaded(s.memories[id], op));
      Some(recorded.(memories := s.memories[id := ApplyUpdate(WithoutBody(s.memories[id]), data)]))
    else if Silent(op) then
      Some(s.(memories := s.memories[id := Overwritten(s.memories[id], op)]))
    else
      Some(s.(memories := s.memories - {id}))
  }

  /** A fresh id: no row, and no history left under it. */
  ghost predicate Admissible(s: State, op: Op) {
    op.Create? && op.memory.id !in s.memories ==> Head(s, op.memory.id) == 0
  }

  /** An ordinary update of a memory that has a body. */
  ghost predicate MeetsBody(s: State, op: Op) {
    op.Update? && op.id in s.memories && s.memories[op.id].content != ""
  }

  // ---------------------------------------------------------------- what every step keeps

  lemma RecordedVersion(s: State, id: string, before: Memory)
    requires Gapless(s)
    ensures RecordBefore(s, id, before).Some?
    ensures var r := RecordBefore(s, id, before).value;
            && Gapless(r) && r.memories == s.memories
            && Head(r, id) == Head(s, id) + 1
            && r.versions == s.versions[(id, Head(s, id) + 1) := ToMemorySnapshot(before)]
            && (forall other :: other != id ==> Head(r, other) == Head(s, other))
  {
  }

  /** A step never changes or drops an earlier version, of this memory or another; not even when the memory is deleted. */
  lemma VersionsAreImmutable(s: State, op: Op)
    requires Gapless(s) && Step(s, op).Some?
    ensures var t := Step(s, op).value;
            forall v :: v in s.versions ==> v in t.versions && t.versions[v] == s.versions[v]
  {
    hide Merge, ApplyUpdate, ToMemorySnapshot, SnapshotToUpdateData, Overwritten;
    if Records(op) {
      hide Gapless;
      RecordedVersion(s, op.id, Loaded(s.memories[op.id], op));
      NextIsUnused(s, op.id);
    }
  }

  lemma NextIsUnused(s: State, id: string)
    requires Gapless(s)
    ensures (id, Head(s, id) + 1) !in s.versions
  {
  }

  lemma StepKeepsGapless(s: State, op: Op)
    requires Gapless(s) && Step(s, op).Some?
    ensures Gapless(Step(s, op).value)
  {
    hide Merge, ApplyUpdate, ToMemorySnapshot, SnapshotToUpdateData, Overwritten;
    if Records(op) {
      RecordedVersion(s, op.id, Loaded(s.memories[op.id], op));
    }
  }

  /** The list with another last entry. */
  function ReplaceLast(t: seq<Snapshot>, x: Snapshot): seq<Snapshot>
    requires t != []
  {
    t[..|t| - 1] + [x]
  }

  /** Timelines of other memories do not change. */
  lemma OtherTimelinesStay(s: State, op: Op, other: string)
    requires Gapless(s) && Step(s, op).Some? && other != TargetOf(op) && other in s.memories
    ensures Gapless(Step(s, op).value) && other in Step(s, op).value.memories
    ensures Timeline(Step(s, op).value, other) == Timeline(s, other)
  {
    hide Merge, ApplyUpdate, ToMemorySnapshot, SnapshotToUpdateData, Overwritten;
    StepKeepsGapless(s, op);
    if Records(op) {
      RecordedVersion(s, op.id, Loaded(s.memories[op.id], op));
    }
  }

  /**
   * What an accepted operation does to its memory's timeline. A recording one puts the row
   * as it was handed to the hook in the place of the current state and adds the new one; a
   * silent one replaces the current state; a new memory starts with its first state.
   */
  lemma StepExtendsTimeline(s: State, op: Op)
    requires Gapless(s) && Admissible(s, op) && Step(s, op).Some?
    ensures Gapless(Step(s, op).value)
    ensures TargetOf(op) in Step(s, op).value.memories <==> !op.Delete?
    ensures !op.Delete? ==>
              var t, id := Step(s, op).value, TargetOf(op);
              var state := ToMemorySnapshot(t.memories[id]);
              Timeline(t, id) ==
                if op.Create? then [state]
                else if Records(op) then ReplaceLast(Timeline(s, id), ToMemorySnapshot(Loaded(s.memories[id], op))) + [state]
                else ReplaceLast(Timeline(s, id), state)
  {
    hide Merge, ApplyUpdate, ToMemorySnapshot, SnapshotToUpdateData, Overwritten;
    StepKeepsGapless(s, op);
    if Records(op) {
      RecordedVersion(s, op.id, Loaded(s.memories[op.id], op));
    }
  }

  lemma TimelineEndsNow(s: State, id: string)
    requires Gapless(s) && id in s.memories
    ensures var t := Timeline(s, id); t[|t| - 1] == ToMemorySnapshot(s.memories[id])
  {
  }

  lemma ReplacedExactly(t: seq<Snapshot>, seen: Snapshot, state: Snapshot)
    requires t != []
    ensures ReplaceLast(t, seen) + [state] == t + [state] <==> seen == t[|t| - 1]
  {
    assert (ReplaceLast(t, seen) + [state])[|t| - 1] == seen && (t + [state])[|t| - 1] == t[|t| - 1];
    assert ReplaceLast(t, t[|t| - 1]) == t;
  }

  lemma VersionAppended(s: State, op: Op)
    requires Gapless(s) && Records(op) && Step(s, op).Some?
    ensures var t := Step(s, op).value;
            (op.id, Head(t, op.id)) in t.versions && t.versions[(op.id, Head(t, op.id))] == ToMemorySnapshot(Loaded(s.memories[op.id], op))
  {
    hide Gapless, Merge, ApplyUpdate, SnapshotToUpdateData, ToMemorySnapshot, Loaded, Written;
    RecordedVersion(s, op.id, Loaded(s.memories[op.id], op));
  }

  /**
   * The state before an operation that records is kept exactly when it is not an ordinary
   * update of a memory with a body.
   */
  lemma StateBeforeIsKeptExactly(s: State, op: Op)
    requires Gapless(s) && Records(op) && Step(s, op).Some?
    ensures Gapless(Step(s, op).value) && op.id in Step(s, op).value.memories
    ensures var t := Step(s, op).value;
            && (Timeline(t, op.id) == Timeline(s, op.id) + [ToMemorySnapshot(t.memories[op.id])] <==> !MeetsBody(s, op))
            && (op.id, Head(t, op.id)) in t.versions
            && t.versions[(op.id, Head(t, op.id))] ==
                 ToMemorySnapshot(s.memories[op.id]).(content := if op.Update? then "" else s.memories[op.id].content)
  {
    StepTarget(s, op);
    hide Gapless, Timeline, Step, Head, ReplaceLast;
    assert Admissible(s, op);
    StepExtendsTimeline(s, op);
    TimelineEndsNow(s, op.id);
    VersionAppended(s, op);
    ReplacedExactly(Timeline(s, op.id), ToMemorySnapshot(Loaded(s.memories[op.id], op)), ToMemorySnapshot(Step(s, op).value.memories[op.id]));
  }

  /** An ordinary update does to the row what it asks for exactly when it gives a content, or the row had none. */
  lemma UpdateKeepsBodyExactly(s: State, id: string, data: UpdateData)
    requires Gapless(s) && id in s.memories
    ensures Step(s, Update(id, data)).Some?
    ensures var t := Step(s, Update(id, data)).value;
            && id in t.memories && t.memories[id].content == OrElse(data.content, "")
            && t.memories[id] == ApplyUpdate(s.memories[id], data).(content := t.memories[id].content)
            && (t.memories[id] == ApplyUpdate(s.memories[id], data) <==> data.content.Some? || s.memories[id].content == "")
  {
    RecordedVersion(s, id, WithoutBody(s.memories[id]));
  }

  /** A body that an update of the title alone wipes, from the row and from the version that restore would use. */
  lemma LostBodyExample(m: Memory, data: UpdateData)
    requires m.content == "x" && data.content.None?
    ensures var created := Step(EMPTY, Create(m));
            && created.Some? && Step(created.value, Update(m.id, data)).Some?
            && var s := Step(created.value, Update(m.id, data)).value;
               && m.id in s.memories && s.memories[m.id].content == ""
               && (m.id, 1) in s.versions && s.versions[(m.id, 1)].content == ""
               && Step(s, Restore(m.id, 1)).Some?
               && m.id in Step(s, Restore(m.id, 1)).value.memories
               && Step(s, Restore(m.id, 1)).value.memories[m.id].content == ""
  {
    var created := Step(EMPTY, Create(m)).value;
    StepKeepsGapless(EMPTY, Create(m));
    UpdateKeepsBodyExactly(created, m.id, data);
    RecordedVersion(created, m.id, WithoutBody(m));
    var s := Step(created, Update(m.id, data)).value;
    StepKeepsGapless(created, Update(m.id, data));
    RestoreShowsVersion(s, m.id, 1);
  }

  // ---------------------------------------------------------------- whole runs

  /** Refused operations leave the state as it is. */
  ghost function Run(s: State, ops: seq<Op>): State {
    if ops == [] then s
    else
      var before := Run(s, ops[..|ops| - 1]);
      var after := Step(before, ops[|ops| - 1]);
      if after.Some? then after.value else before
  }

  /** Every created memory gets an id without row or history, as a new UUID is. */
  ghost predicate AllAdmissible(start: State, ops: seq<Op>) {
    ops == [] || (AllAdmissible(start, ops[..|ops| - 1]) && Admissible(Run(start, ops[..|ops| - 1]), ops[|ops| - 1]))
  }

  /** The last operation, if it is accepted and about this memory. */
  ghost predicate Concerns(start: State, ops: seq<Op>, id: string)
    requires ops != []
  {
    Step(Run(start, ops[..|ops| - 1]), ops[|ops| - 1]).Some? && TargetOf(ops[|ops| - 1]) == id
  }

  /** The states that a memory has had when the operations begin. */
  ghost function StatesBefore(start: State, id: string): seq<Snapshot>
    requires Gapless(start)
  {
    if id in start.memories then Timeline(start, id) else []
  }

  /** The state that the last operation gives its memory, if it leaves one. */
  ghost function NewState(start: State, ops: seq<Op>, id: string): seq<Snapshot> {
    if id in Run(start, ops).memories then [ToMemorySnapshot(Run(start, ops).memories[id])] else []
  }

  /** Every state that a memory has been in since it was created, recorded as the operations happen. */
  ghost function StatesOf(start: State, ops: seq<Op>, id: string): seq<Snapshot>
    requires Gapless(start)
  {
    if ops == [] then StatesBefore(start, id)
    else
      var front, op := ops[..|ops| - 1], ops[|ops| - 1];
      if !Concerns(start, ops, id) then StatesOf(start, front, id)
      else if Records(op) || Silent(op) then StatesOf(start, front, id) + NewState(start, ops, id)
      else NewState(start, ops, id)
  }

  /** The same, where a silent operation changes the latest state instead of adding one. */
  ghost function KeptOf(start: State, ops: seq<Op>, id: string): seq<Snapshot>
    requires Gapless(start)
  {
    if ops == [] then StatesBefore(start, id)
    else
      var front, op := ops[..|ops| - 1], ops[|ops| - 1];
      var kept := KeptOf(start, front, id);
      if !Concerns(start, ops, id) then kept
      else if Records(op) then kept + NewState(start, ops, id)
      else if Silent(op) && kept != [] then kept[..|kept| - 1] + NewState(start, ops, id)
      else NewState(start, ops, id)
  }

  /** No accepted ordinary update since the memory was created met a body. */
  ghost predicate NoBodyMet(start: State, ops: seq<Op>, id: string) {
    ops == []
    || var front, op := ops[..|ops| - 1], ops[|ops| - 1];
       if !Concerns(start, ops, id) || Silent(op) then NoBodyMet(start, front, id)
       else Records(op) ==> NoBodyMet(start, front, id) && !MeetsBody(Run(start, front), op)
  }

  /** No accepted operation since the memory was created was silent. */
  ghost predicate NothingSilent(start: State, ops: seq<Op>, id: string) {
    ops == []
    || var front, op := ops[..|ops| - 1], ops[|ops| - 1];
       if !Concerns(start, ops, id) || Records(op) then NothingSilent(start, front, id) else !Silent(op)
  }

  lemma {:induction false} RunIsGapless(start: State, ops: seq<Op>)
    requires Gapless(start)
    ensures Gapless(Run(start, ops))
  {
    if ops != [] {
      hide Gapless, Step;
      RunIsGapless(start, ops[..|ops| - 1]);
      if Step(Run(start, ops[..|ops| - 1]), ops[|ops| - 1]).Some? {
        StepKeepsGapless(Run(start, ops[..|ops| - 1]), ops[|ops| - 1]);
      }
    }
  }

  /** Entry by entry the same, but for the bodies. */
  ghost predicate AlikeButBodies(a: seq<Snapshot>, b: seq<Snapshot>) {
    |a| == |b| && forall i :: 0 <= i < |a| ==> AlikeButBody(a[i], b[i])
  }

  ghost predicate AlikeButBody(a: Snapshot, b: Snapshot) {
    a.(content := "") == b.(content := "")
  }

  /** Two lists that end alike, agree but for bodies, and agree altogether exactly when `same`. */
  ghost predicate Follows(timeline: seq<Snapshot>, kept: seq<Snapshot>, same: bool) {
    && |timeline| == |kept| > 0 && timeline[|kept| - 1] == kept[|kept| - 1]
    && AlikeButBodies(timeline, kept) && (timeline == kept <==> same)
  }

  /** Equal but for the last entry, which is another one. */
  lemma ReplacedAgree(t: seq<Snapshot>, kept: seq<Snapshot>, x: Snapshot, y: Snapshot)
    requires |t| == |kept| > 0 && t[|t| - 1] == kept[|t| - 1]
    ensures ReplaceLast(t, x) == ReplaceLast(kept, y) <==> t == kept && x == y
  {
    var n := |t| - 1;
    assert t == ReplaceLast(t, t[n]) && kept == ReplaceLast(kept, kept[n]);
    assert ReplaceLast(t, x)[..n] == t[..n] && ReplaceLast(kept, y)[..n] == kept[..n];
    assert ReplaceLast(t, x)[n] == x && ReplaceLast(kept, y)[n] == y;
  }

  lemma ReplacedAlike(t: seq<Snapshot>, kept: seq<Snapshot>, x: Snapshot, y: Snapshot)
    requires AlikeButBodies(t, kept) && t != [] && AlikeButBody(x, y)
    ensures AlikeButBodies(ReplaceLast(t, x), ReplaceLast(kept, y))
  {
    hide AlikeButBody;
  }

  lemma FollowsRecorded(t: seq<Snapshot>, kept: seq<Snapshot>, same: bool, seen: Snapshot, state: Snapshot)
    requires Follows(t, kept, same) && AlikeButBody(seen, t[|t| - 1])
    ensures Follows(ReplaceLast(t, seen) + [state], kept + [state], same && seen == t[|t| - 1])
  {
    var last := t[|t| - 1];
    ReplacedAgree(t, kept, seen, last);
    ReplacedAlike(t, kept, seen, last);
    assert ReplaceLast(kept, last) == kept;
    hide ReplaceLast, AlikeButBody;
    OneMoreAgrees(ReplaceLast(t, seen), kept, state);
  }

  lemma OneMoreAgrees(a: seq<Snapshot>, b: seq<Snapshot>, x: Snapshot)
    requires AlikeButBodies(a, b)
    ensures AlikeButBodies(a + [x], b + [x]) && (a + [x] == b + [x] <==> a == b)
  {
    assert (a + [x])[..|a|] == a && (b + [x])[..|b|] == b;
  }

  lemma FollowsReplaced(t: seq<Snapshot>, kept: seq<Snapshot>, same: bool, state: Snapshot)
    requires Follows(t, kept, same)
    ensures Follows(ReplaceLast(t, state), kept[..|kept| - 1] + [state], same)
  {
    ReplacedAgree(t, kept, state, state);
    ReplacedAlike(t, kept, state, state);
  }

  lemma FollowsItself(t: seq<Snapshot>)
    requires t != []
    ensures Follows(t, t, true)
  {
  }

  /** How the list and the condition grow with an operation on the memory. */
  lemma KeptUnfold(start: State, ops: seq<Op>, id: string)
    requires ops != [] && Gapless(start) && Concerns(start, ops, id) && id in Run(start, ops).memories
    ensures var front, op := ops[..|ops| - 1], ops[|ops| - 1];
            var kept, state := KeptOf(start, front, id), [ToMemorySnapshot(Run(start, ops).memories[id])];
            && (KeptOf(start, ops, id) ==
                  if Records(op) then kept + state
                  else if Silent(op) && kept != [] then kept[..|kept| - 1] + state else state)
            && (NoBodyMet(start, ops, id) <==>
                  if Silent(op) then NoBodyMet(start, front, id)
                  else Records(op) ==> NoBodyMet(start, front, id) && !MeetsBody(Run(start, front), op))
  {
    hide Gapless, Step, ToMemorySnapshot, MeetsBody;
  }

  lemma LastStateIsKept(start: State, ops: seq<Op>, id: string)
    requires ops != [] && Gapless(start) && Concerns(start, ops, id) && id in Run(start, ops).memories
    requires var s := Run(start, ops[..|ops| - 1]);
             && Gapless(s) && Gapless(Run(start, ops)) && Admissible(s, ops[|ops| - 1])
             && (id in s.memories ==>
                   Follows(Timeline(s, id), KeptOf(start, ops[..|ops| - 1], id), NoBodyMet(start, ops[..|ops| - 1], id)))
    ensures Follows(Timeline(Run(start, ops), id), KeptOf(start, ops, id), NoBodyMet(start, ops, id))
  {
    KeptUnfold(start, ops, id);
    hide KeptOf, NoBodyMet, Gapless, Timeline, Step, Admissible, Head, Follows;
    StepFollows(Run(start, ops[..|ops| - 1]), ops[|ops| - 1], KeptOf(start, ops[..|ops| - 1], id), NoBodyMet(start, ops[..|ops| - 1], id));
  }

  /** One operation takes a list that follows the timeline to one that does. */
  lemma StepFollows(s: State, op: Op, kept: seq<Snapshot>, same: bool)
    requires Gapless(s) && Admissible(s, op) && Step(s, op).Some? && !op.Delete?
    requires TargetOf(op) in s.memories ==> Follows(Timeline(s, TargetOf(op)), kept, same)
    ensures Gapless(Step(s, op).value) && TargetOf(op) in Step(s, op).value.memories
    ensures var t, id := Step(s, op).value, TargetOf(op);
            var state := [ToMemorySnapshot(t.memories[id])];
            && (op.Create? ==> Follows(Timeline(t, id), state, true))
            && (Records(op) ==> Follows(Timeline(t, id), kept + state, same && !MeetsBody(s, op)))
            && (Silent(op) ==> kept != [] && Follows(Timeline(t, id), kept[..|kept| - 1] + state, same))
  {
    hide Gapless, Timeline, Step, Admissible, Head, Follows, ReplaceLast, ToMemorySnapshot, Loaded, MeetsBody, AlikeButBody;
    StepExtendsTimeline(s, op);
    StepTarget(s, op);
    var id := TargetOf(op);
    var state := ToMemorySnapshot(Step(s, op).value.memories[id]);
    if id in s.memories {
      TimelineEndsNow(s, id);
      SeenButBody(s, op, id);
    }
    if op.Create? {
      FollowsItself([state]);
    } else if Records(op) {
      FollowsRecorded(Timeline(s, id), kept, same, ToMemorySnapshot(Loaded(s.memories[id], op)), state);
    } else {
      FollowsNotEmpty(Timeline(s, id), kept, same);
      FollowsReplaced(Timeline(s, id), kept, same, state);
    }
  }

  lemma FollowsNotEmpty(t: seq<Snapshot>, kept: seq<Snapshot>, same: bool)
    requires Follows(t, kept, same)
    ensures t != [] && |kept| == |t|
  {
  }

  lemma SeenButBody(s: State, op: Op, id: string)
    requires id in s.memories && id == TargetOf(op)
    ensures var seen, now := ToMemorySnapshot(Loaded(s.memories[id], op)), ToMemorySnapshot(s.memories[id]);
            AlikeButBody(seen, now) && (seen == now <==> !MeetsBody(s, op))
  {
  }

  lemma StepTarget(s: State, op: Op)
    requires Step(s, op).Some?
    ensures op.Create? <==> TargetOf(op) !in s.memories
    ensures forall id :: id in Step(s, op).value.memories <==> (id in s.memories && !(op.Delete? && id == op.id)) || (op.Create? && id == op.memory.id)
    ensures !op.Create? && !Records(op) && !Silent(op) ==> op.Delete?
  {
  }

  /**
   * From any numbered state, whatever happens: versions plus current row are, but for the
   * bodies, the states that the memory has had, a silent write taken together with the
   * state it changed; and they are those states exactly when no ordinary update met a body.
   */
  lemma {:induction false} TimelineIsKept(start: State, ops: seq<Op>, id: string)
    requires Gapless(start) && AllAdmissible(start, ops)
    requires id in Run(start, ops).memories
    ensures Gapless(Run(start, ops))
    ensures Follows(Timeline(Run(start, ops), id), KeptOf(start, ops, id), NoBodyMet(start, ops, id))
  {
    RunIsGapless(start, ops);
    if ops == [] {
      FollowsItself(Timeline(start, id));
    } else {
      hide Gapless, Timeline, Step, Admissible, Follows;
      var front, op := ops[..|ops| - 1], ops[|ops| - 1];
      var s := Run(start, front);
      RunIsGapless(start, front);
      if id in s.memories {
        TimelineIsKept(start, front, id);
      }
      if Concerns(start, ops, id) {
        LastStateIsKept(start, ops, id);
      } else if Step(s, op).Some? {
        StepTarget(s, op);
        OtherTimelinesStay(s, op, id);
      }
    }
  }

  /** A silent operation costs one state of the list. */
  lemma {:induction false} KeptExactly(start: State, ops: seq<Op>, id: string)
    requires Gapless(start)
    ensures |KeptOf(start, ops, id)| <= |StatesOf(start, ops, id)|
    ensures |KeptOf(start, ops, id)| == |StatesOf(start, ops, id)| <==> NothingSilent(start, ops, id)
    ensures NothingSilent(start, ops, id) ==> KeptOf(start, ops, id) == StatesOf(start, ops, id)
    ensures id in Run(start, ops).memories ==> KeptOf(start, ops, id) != []
  {
    if ops != [] {
      hide Gapless, Step, StatesBefore;
      var front, op := ops[..|ops| - 1], ops[|ops| - 1];
      KeptExactly(start, front, id);
      if Step(Run(start, front), op).Some? {
        StepTarget(Run(start, front), op);
      }
    }
  }

  /**
   * The exact condition: versions plus current row are the full list of the memory's
   * states, those of before included, iff no ordinary update met a body and no operation
   * wrote silently.
   */
  lemma TimelineIsFullHistory(start: State, ops: seq<Op>, id: string)
    requires Gapless(start) && AllAdmissible(start, ops)
    requires id in Run(start, ops).memories
    ensures Gapless(Run(start, ops))
    ensures Timeline(Run(start, ops), id) == StatesOf(start, ops, id)
            <==> NoBodyMet(start, ops, id) && NothingSilent(start, ops, id)
  {
    TimelineIsKept(start, ops, id);
    KeptExactly(start, ops, id);
    hide Gapless, Timeline, Run, KeptOf, StatesOf, NoBodyMet, NothingSilent;
  }

  // ---------------------------------------------------------------- restore

  /** After restore(k) the memory shows version k, and the state it had is the newest version. */
  lemma RestoreShowsVersion(s: State, id: string, k: nat)
    requires Gapless(s) && id in s.memories
    ensures Step(s, Restore(id, k)).Some? <==> 1 <= k <= Head(s, id)
    ensures Step(s, Restore(id, k)).Some? ==>
              var t := Step(s, Restore(id, k)).value;
              && Gapless(t) && id in t.memories
              && ToMemorySnapshot(t.memories[id]) == s.versions[(id, k)]
              && Head(t, id) == Head(s, id) + 1
              && t.versions[(id, Head(t, id))] == ToMemorySnapshot(s.memories[id])
  {
    if 1 <= k <= Head(s, id) {
      RecordedVersion(s, id, s.memories[id]);
      SnapshotRoundTrip(s.memories[id], s.versions[(id, k)]);
    }
  }

  /** Restoring the version that a restore appended undoes it. */
  lemma RestoreUndone(s: State, id: string, k: nat)
    requires Gapless(s) && id in s.memories && 1 <= k <= Head(s, id)
    ensures var t := Step(s, Restore(id, k)).value;
            && Step(t, Restore(id, Head(t, id))).Some?
            && var u := Step(t, Restore(id, Head(t, id))).value;
               && id in u.memories && ToMemorySnapshot(u.memories[id]) == ToMemorySnapshot(s.memories[id])
               && u.memories[id].slug == s.memories[id].slug
               && Head(u, id) == Head(s, id) + 2
  {
    RestoreShowsVersion(s, id, k);
    var t := Step(s, Restore(id, k)).value;
    RestoreShowsVersion(t, id, Head(t, id));
    SnapshotRoundTrip(s.memories[id], s.versions[(id, k)]);
    SnapshotRoundTrip(t.memories[id], t.versions[(id, Head(t, id))]);
  }

  // ---------------------------------------------------------------- operations without a version

  /** Everything of the state but one memory's row. */
  ghost predicate OnlyRowChanged(s: State, t: State, id: string) {
    && t.versions == s.versions && t.heads == s.heads
    && t.memories.Keys == s.memories.Keys && forall k :: k in s.memories && k != id ==> t.memories[k] == s.memories[k]
  }

  /** The two switches change their flag and nothing else, and record nothing; switching favorite twice changes nothing. */
  lemma SwitchesExactly(s: State, id: string, archived: bool)
    requires id in s.memories
    ensures var toggled := Step(s, ToggleFavorite(id));
            && toggled.Some? && OnlyRowChanged(s, toggled.value, id)
            && toggled.value.memories[id].favorite != s.memories[id].favorite
            && toggled.value.memories[id].(favorite := s.memories[id].favorite) == s.memories[id]
            && Step(toggled.value, ToggleFavorite(id)) == Some(s)
    ensures var shelved := Step(s, Archive(id, archived));
            && shelved.Some? && OnlyRowChanged(s, shelved.value, id)
            && shelved.value.memories[id].archived == archived
            && shelved.value.memories[id].(archived := s.memories[id].archived) == s.memories[id]
  {
    hide ApplyUpdate;
    var toggled := Step(s, ToggleFavorite(id)).value;
    assert s.memories[id := s.memories[id]] == s.memories;
    assert toggled.memories[id := s.memories[id]] == s.memories;
  }

  /** A job that writes columns directly sets what it gives, the body included, keeps the rest, and records nothing. */
  lemma DirectWriteExactly(s: State, id: string, data: UpdateData)
    ensures Step(s, DirectWrite(id, data)).Some? <==> id in s.memories
    ensures id in s.memories ==>
              var t := Step(s, DirectWrite(id, data)).value;
              && OnlyRowChanged(s, t, id) && t.memories[id].id == s.memories[id].id
              && Sets(data.content, t.memories[id].content, s.memories[id].content)
              && Sets(data.title, t.memories[id].title, s.memories[id].title)
              && Sets(data.category, t.memories[id].category, s.memories[id].category)
              && Sets(data.importance, t.memories[id].importance, s.memories[id].importance)
              && Sets(data.slug, t.memories[id].slug, s.memories[id].slug)
  {
    hide ApplyUpdate;
    if id in s.memories {
      GivenFieldsAreSet(s.memories[id], data);
    }
  }

  /** Deleting takes the row and leaves the history; creating adds the row and starts its history at 0. */
  lemma RowsComeAndGo(s: State, m: Memory)
    ensures Step(s, Delete(m.id)).Some? <==> m.id in s.memories
    ensures m.id in s.memories ==>
              var t := Step(s, Delete(m.id)).value;
              t.versions == s.versions && t.heads == s.heads && t.memories == s.memories - {m.id}
    ensures Step(s, Create(m)).Some? <==> m.id !in s.memories
    ensures m.id !in s.memories ==>
              var t := Step(s, Create(m)).value;
              && t.versions == s.versions && m.id in t.heads && Head(t, m.id) == Head(s, m.id)
              && t.memories == s.memories[m.id := m]
  {
  }

  // ---------------------------------------------------------------- merge

  /** What comes in: a version by its number, or None for the current row. */
  function MergeOp(id: string, base: nat, incoming: Option<nat>): Op {
    if incoming.Some? then MergeWithVersion(id, base, incoming.value) else MergeWithCurrent(id, base)
  }

  /** Are the versions that a merge names there? */
  ghost predicate MergeNamesVersions(s: State, id: string, base: nat, incoming: Option<nat>) {
    id in s.memories && 1 <= base <= Head(s, id) && (incoming.Some? ==> 1 <= incoming.value <= Head(s, id))
  }

  /** The row is the merge of two snapshots, read off the stored versions; with the current row its body is included. */
  ghost predicate ShowsMerged(row: Memory, s: State, id: string, base: nat, incoming: Option<nat>)
    requires Gapless(s) && MergeNamesVersions(s, id, base, incoming)
  {
    && row.slug == s.memories[id].slug
    && MergedOf(ToMemorySnapshot(row), s.versions[(id, base)],
                if incoming.Some? then s.versions[(id, incoming.value)] else ToMemorySnapshot(s.memories[id]))
  }

  /** A merge is accepted iff the versions it names are there; the row is then their merge. */
  lemma MergeShowsMerged(s: State, id: string, base: nat, incoming: Option<nat>)
    requires Gapless(s)
    ensures Step(s, MergeOp(id, base, incoming)).Some? <==> MergeNamesVersions(s, id, base, incoming)
    ensures Step(s, MergeOp(id, base, incoming)).Some? ==>
              var t := Step(s, MergeOp(id, base, incoming)).value;
              id in t.memories && ShowsMerged(t.memories[id], s, id, base, incoming)
  {
    hide Merge, MergedOf, SnapshotToUpdateData, ToMemorySnapshot, Written, Step, MergeOp;
    MergeIsWritten(s, id, base, incoming);
    if MergeNamesVersions(s, id, base, incoming) {
      var other := if incoming.Some? then s.versions[(id, incoming.value)] else ToMemorySnapshot(s.memories[id]);
      MergeIsShown(s, MergeOp(id, base, incoming), s.versions[(id, base)], other);
    } else {
      RefusedWhenNothingWritten(s, MergeOp(id, base, incoming));
    }
  }

  lemma MergeIsWritten(s: State, id: string, base: nat, incoming: Option<nat>)
    requires Gapless(s)
    ensures var op := MergeOp(id, base, incoming);
            && Records(op) && op.id == id
            && (id in s.memories ==>
                  Written(s, op) ==
                    if !MergeNamesVersions(s, id, base, incoming) then None
                    else Some(SnapshotToUpdateData(Merge(s.versions[(id, base)],
                           if incoming.Some? then s.versions[(id, incoming.value)] else ToMemorySnapshot(s.memories[id])))))
  {
    hide Merge, SnapshotToUpdateData, ToMemorySnapshot;
  }

  lemma RefusedWhenNothingWritten(s: State, op: Op)
    requires Records(op) && (op.id in s.memories ==> Written(s, op) == None)
    ensures Step(s, op) == None
  {
    hide Written;
  }

  lemma MergeIsShown(s: State, op: Op, base: Snapshot, incoming: Snapshot)
    requires Gapless(s) && Records(op) && op.id in s.memories && Written(s, op) == Some(SnapshotToUpdateData(Merge(base, incoming)))
    ensures Step(s, op).Some? && op.id in Step(s, op).value.memories
    ensures var m := Step(s, op).value.memories[op.id];
            MergedOf(ToMemorySnapshot(m), base, incoming) && m.slug == s.memories[op.id].slug
  {
    hide Merge, MergedOf, Written;
    MergeKeepsPromise(base, incoming);
    RecordedVersion(s, op.id, Loaded(s.memories[op.id], op));
    SnapshotRoundTrip(WithoutBody(s.memories[op.id]), Merge(base, incoming));
  }

  // ---------------------------------------------------------------- the stores in place

  class EvolutionStores {
    var memories: map<string, Memory>
    var versions: map<(string, nat), Snapshot>
    var heads: map<string, nat>

    ghost function Now(): State
      reads this
    {
      State(memories, versions, heads)
    }

    ghost predicate Valid()
      reads this
    {
      Gapless(Now()) && forall id :: id in memories ==> memories[id].id == id
    }

    constructor ()
      ensures Valid() && Now() == EMPTY
    {
      memories, versions, heads := map[], map[], map[];
    }

    method OnMemoryCreated(memory: Memory)
      modifies this`heads
      ensures Now() == InitHead(old(Now()), memory.id)
    {
      if memory.id !in heads {
        heads := heads[memory.id := 0];
      }
    }

    /** The head may be missing: the memory may be older than the version history. */
    method OnMemoryUpdated(before: Memory)
      requires Gapless(Now())
      modifies this`heads, this`versions
      ensures RecordBefore(old(Now()), before.id, before) == Some(Now())
    {
      RecordedVersion(Now(), before.id, before);
      if before.id !in heads {
        heads := heads[before.id := 0];
      }
      var nextVersion := heads[before.id] + 1;
      var snapshot := ToMemorySnapshot(before);
      versions := versions[(before.id, nextVersion) := snapshot];
      heads := heads[before.id := nextVersion];
    }

    /** The repository's update reads the row without its body and writes every column back. */
    method Write(id: string, data: UpdateData) returns (updated: Memory)
      requires id in memories
      modifies this`memories
      ensures memories == old(memories)[id := ApplyUpdate(WithoutBody(old(memories)[id]), data)]
      ensures updated == memories[id]
    {
      updated := ApplyUpdate(WithoutBody(memories[id]), data);
      memories := memories[id := updated];
    }

    /** Append the row that was loaded as a version, then write. */
    method RecordAndWrite(before: Memory, data: UpdateData, ghost op: Op) returns (updated: Memory)
      requires Valid() && Records(op) && before.id == op.id && op.id in memories
      requires before == Loaded(memories[op.id], op) && Written(Now(), op) == Some(data)
      modifies this
      ensures Valid()
      ensures Step(old(Now()), op) == Some(Now())
      ensures op.id in memories && updated == memories[op.id] == ApplyUpdate(WithoutBody(old(memories)[op.id]), data)
    {
      hide Written, Loaded, ToMemorySnapshot;
      RecordedVersion(Now(), before.id, before);
      StepKeepsGapless(Now(), op);
      OnMemoryUpdated(before);
      updated := Write(before.id, data);
    }

    method CreateMemory(memory: Memory) returns (done: bool)
      requires Valid()
      modifies this
      ensures Valid()
      ensures done == Step(old(Now()), Create(memory)).Some?
      ensures Now() == if done then Step(old(Now()), Create(memory)).value else old(Now())
    {
      done := memory.id !in memories;
      if done {
        memories := memories[memory.id := memory];
        OnMemoryCreated(memory);
      }
    }

    /** updateMemory: the row is read without its body, recorded, and written over. */
    method UpdateMemory(id: string, data: UpdateData) returns (result: Option<Memory>)
      requires Valid()
      modifies this
      ensures Valid()
      ensures match Step(old(Now()), Update(id, data))
              case None => result == None && Now() == old(Now())
              case Some(next) => Now() == next && id in memories && result == Some(memories[id])
      ensures result.Some? ==>
                && result.value.content == OrElse(data.content, "")
                && (result.value == ApplyUpdate(old(memories)[id], data) <==> data.content.Some? || old(memories)[id].content == "")
    {
      if id !in memories {
        return None;
      }
      UpdateKeepsBodyExactly(Now(), id, data);
      var existing := WithoutBody(memories[id]);
      var updated := RecordAndWrite(existing, data, Update(id, data));
      result := Some(updated);
    }

    /** One UPDATE of the flag alone; no version is recorded. */
    method ToggleFavoriteFlag(id: string) returns (done: bool)
      requires Valid()
      modifies this`memories
      ensures Valid()
      ensures done == Step(old(Now()), ToggleFavorite(id)).Some?
      ensures Now() == if done then Step(old(Now()), ToggleFavorite(id)).value else old(Now())
    {
      done := id in memories;
      if done {
        memories := memories[id := memories[id].(favorite := !memories[id].favorite)];
      }
    }

    method ArchiveMemory(id: string, archived: bool) returns (done: bool)
      requires Valid()
      modifies this`memories
      ensures Valid()
      ensures done == Step(old(Now()), Archive(id, archived)).Some?
      ensures Now() == if done then Step(old(Now()), Archive(id, archived)).value else old(Now())
    {
      done := id in memories;
      if done {
        memories := memories[id := memories[id].(archived := archived)];
      }
    }

    /** Versions and head stay. */
    method DeleteMemory(id: string) returns (done: bool)
      requires Valid()
      modifies this`memories
      ensures Valid()
      ensures done == Step(old(Now()), Delete(id)).Some?
      ensures Now() == if done then Step(old(Now()), Delete(id)).value else old(Now())
    {
      done := id in memories;
      memories := memories - {id};
    }

    method RestoreToVersion(id: string, versionNumber: nat) returns (result: Option<Memory>)
      requires Valid()
      modifies this
      ensures Valid()
      ensures match Step(old(Now()), Restore(id, versionNumber))
              case None => result == None && Now() == old(Now())
              case Some(next) => Now() == next && id in memories && result == Some(memories[id])
      ensures result.Some? ==> ToMemorySnapshot(result.value) == old(versions)[(id, versionNumber)]
    {
      if id !in memories {
        return None;
      }
      if (id, versionNumber) !in versions {
        return None;
      }
      var data := SnapshotToUpdateData(versions[(id, versionNumber)]);
      SnapshotRoundTrip(WithoutBody(memories[id]), versions[(id, versionNumber)]);
      var updated := RecordAndWrite(memories[id], data, Restore(id, versionNumber));
      result := Some(updated);
    }

    /** `incoming` is a version number, or None for the current row. */
    method MergeVersions(id: string, base: nat, incoming: Option<nat>) returns (result: Option<Memory>)
      requires Valid()
      modifies this
      ensures Valid()
      ensures match Step(old(Now()), MergeOp(id, base, incoming))
              case None => result == None && Now() == old(Now())
              case Some(next) => Now() == next && id in memories && result == Some(memories[id])
      ensures result.Some? <==> MergeNamesVersions(old(Now()), id, base, incoming)
      ensures result.Some? ==> ShowsMerged(result.value, old(Now()), id, base, incoming)
    {
      hide Merge, ToMemorySnapshot, SnapshotToUpdateData, MergedOf, ShowsMerged, Step, ApplyUpdate;
      MergeShowsMerged(Now(), id, base, incoming);
      if id !in memories {
        return None;
      }
      if (id, base) !in versions {
        return None;
      }
      var incomingSnapshot := ToMemorySnapshot(memories[id]);
      if incoming.Some? {
        if (id, incoming.value) !in versions {
          return None;
        }
        incomingSnapshot := versions[(id, incoming.value)];
      }
      var merged := Merge(versions[(id, base)], incomingSnapshot);
      var updated := RecordAndWrite(memories[id], SnapshotToUpdateData(merged), MergeOp(id, base, incoming));
      result := Some(updated);
    }
  }
}
