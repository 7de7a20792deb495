/** mergeFields of src/client-sync/client-sync.service.ts: what a pushed update may change. */
module FieldMerge {
  import opened Outcomes
  import opened JsStrings
  import opened Snapshots
  import opened Evolution

  /** The fields of a pushed change; None is a field that is not there. */
  datatype PushData = PushData(
    title: Option<string>, project: Option<string>, content: Option<string>, summary: Option<string>,
    tags: Option<seq<string>>, favorite: Option<bool>)

  datatype MergedFields = MergedFields(title: string, project: string, content: string, summary: string, tags: seq<string>, favorite: bool)

  function MergeFields(withPolicy: bool, existing: Memory, incoming: PushData): MergedFields {
    if withPolicy then
      var snapshot := ToMemorySnapshot(existing.(
        title := OrElse(incoming.title, existing.title), project := OrElse(incoming.project, existing.project),
        content := OrElse(incoming.content, existing.content), summary := OrElse(incoming.summary, existing.summary),
        tags := OrElse(incoming.tags, existing.tags), favorite := OrElse(incoming.favorite, existing.favorite)));
      var merged := Merge(ToMemorySnapshot(existing), snapshot);
      MergedFields(merged.title, merged.project, merged.content, merged.summary, merged.tags, merged.favorite)
    else
      MergedFields(OrElse(incoming.title, existing.title), OrElse(incoming.project, existing.project),
                   OrElse(incoming.content, existing.content), OrElse(incoming.summary, existing.summary),
                   if incoming.tags.Some? then Distinct(existing.tags + incoming.tags.value) else existing.tags,
                   OrElse(incoming.favorite, existing.favorite))
  }

  /** A pushed text is blank but not absent. */
  ghost predicate Wipes(field: Option<string>) {
    field.Some? && Blank(field.value)
  }

  /** A change that the policy honours as it stands. */
  ghost predicate Honoured(existing: Memory, incoming: PushData) {
    && OrElse(incoming.project, existing.project) == existing.project
    && OrElse(incoming.favorite, existing.favorite) == existing.favorite
    && (Wipes(incoming.title) ==> incoming.title.value == existing.title)
    && (Wipes(incoming.content) ==> incoming.content.value == existing.content)
    && (Wipes(incoming.summary) ==> incoming.summary.value == existing.summary)
    && (incoming.tags.None? ==> NoRepeats(existing.tags))
  }

  /**
   * With the policy, a pushed project or favorite flag is dropped and a blank text does not
   * wipe: the result is what the pusher asked for exactly when the change does none of that.
   */
  lemma PolicyAgreesExactly(existing: Memory, incoming: PushData)
    ensures MergeFields(true, existing, incoming) == MergeFields(false, existing, incoming) <==> Honoured(existing, incoming)
    ensures MergeFields(true, existing, incoming).project == existing.project
    ensures MergeFields(true, existing, incoming).favorite == existing.favorite
  {
    hide Trim;
    DistinctFixedExactly(existing.tags);
    assert Blank(existing.title) <==> Trim(existing.title) == "";
  }

  /**
   * What is asked of the memory: without the policy the pushed fields, and its own where none is
   * pushed, with the tags of both; with it the texts that are pushed and not blank, and its own
   * project and favorite flag.
   */
  lemma PushedFieldsAreTaken(existing: Memory, incoming: PushData)
    ensures var m := MergeFields(false, existing, incoming);
            && Sets(incoming.title, m.title, existing.title) && Sets(incoming.project, m.project, existing.project)
            && Sets(incoming.content, m.content, existing.content) && Sets(incoming.summary, m.summary, existing.summary)
            && Sets(incoming.favorite, m.favorite, existing.favorite)
            && (incoming.tags.None? ==> m.tags == existing.tags)
            && (incoming.tags.Some? ==> ListTaken(m.tags, existing.tags, incoming.tags.value))
    ensures var m := MergeFields(true, existing, incoming);
            && TextTaken(m.title, existing.title, OrElse(incoming.title, existing.title))
            && TextTaken(m.content, existing.content, OrElse(incoming.content, existing.content))
            && TextTaken(m.summary, existing.summary, OrElse(incoming.summary, existing.summary))
            && ListTaken(m.tags, existing.tags, OrElse(incoming.tags, existing.tags))
            && m.project == existing.project && m.favorite == existing.favorite
  {
    UnionMeaning(existing.tags, OrElse(incoming.tags, existing.tags));
    hide Trim, Distinct, NoRepeats;
  }

  /** Does the merge take the pushed content? With the policy a blank one does not count. */
  ghost predicate TakesContent(withPolicy: bool, incoming: PushData) {
    incoming.content.Some? && (withPolicy ==> !Blank(incoming.content.value))
  }

  /**
   * A pushed update is merged with the row as it is read, without its body, and written by an
   * ordinary update: the body afterwards is the pushed content if the merge takes it, and
   * empty otherwise, whatever else `enriched` sets. So a push that gives no content keeps
   * the body exactly when there is none.
   */
  lemma PushedBodyExactly(s: State, id: string, withPolicy: bool, incoming: PushData, enriched: UpdateData)
    requires Gapless(s) && id in s.memories
    requires enriched.content == Some(MergeFields(withPolicy, WithoutBody(s.memories[id]), incoming).content)
    ensures Step(s, Update(id, enriched)).Some? && id in Step(s, Update(id, enriched)).value.memories
    ensures var body := Step(s, Update(id, enriched)).value.memories[id].content;
            && body == (if TakesContent(withPolicy, incoming) then incoming.content.value else "")
            && (incoming.content.None? ==> (body == s.memories[id].content <==> s.memories[id].content == ""))
  {
    hide Gapless, Trim, Step;
    UpdateKeepsBodyExactly(s, id, enriched);
    assert Trim("") == "" by {
      TrimFixed("");
    }
  }

  /** Either way no tag is lost and none is invented. */
  lemma TagsAreUnited(withPolicy: bool, existing: Memory, incoming: PushData)
    ensures forall t :: t in MergeFields(withPolicy, existing, incoming).tags <==>
              t in existing.tags || (incoming.tags.Some? && t in incoming.tags.value)
  {
    UnionMeaning(existing.tags, OrElse(incoming.tags, existing.tags));
  }
}
