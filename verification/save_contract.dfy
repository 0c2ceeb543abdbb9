/** What happens to the editor's resume when "Save" sends it, whole, as the
    body of `PUT /api/resumes/:id` (client/src/pages/Editor.jsx, handleSave)
    and the server merges it into the stored document. */
module SaveContract {
  import opened Js
  import opened ResumeSchema
  import opened ResumeStore
  import opened EditorState

  /** The request body of a save: the whole editor state, every field present. */
  function SaveBody(r: Resume): (p: Patch)
    ensures p.title == Some(r.title) && p.summary == Some(r.summary) && p.themeColor == Some(r.themeColor)
    ensures p.personalInfo == Some(r.personalInfo)
    ensures forall s :: PatchItems(p, s) == Items(r, s)
  {
    Patch(Some(r.title), Some(r.personalInfo), Some(r.summary), r.education, r.experience,
          r.skills, r.projects, r.responsibilities, r.achievements, Some(r.themeColor))
  }

  /** Every skill already carries a level, so the cast adds nothing. */
  predicate SkillsLevelled(r: Resume) {
    forall e :: e in OrEmpty(r.skills) ==> !(e.SkillEntry? && e.level == None)
  }

  lemma CastKeepsLevelled(items: seq<Entry>)
    requires forall e :: e in items ==> !(e.SkillEntry? && e.level == None)
    ensures CastSkills(items) == items
  {
    var c := CastSkills(items);
    forall i | 0 <= i < |items| ensures c[i] == items[i] {
      assert items[i] in items;
    }
  }

  /** The truthy merge of a save body equals the editor state carrying the
      stored document's id, owner and timestamps, when no string field of
      the editor is empty, every section is present and every skill has a
      level. The update route then stamps a new `updatedAt` (see `Saved`),
      and the real store also drops the `hidden` flag, which its schema
      does not declare; this model keeps it. */
  lemma {:induction false} SaveRoundTrip(d: Resume, r: Resume)
    requires AllSectionsPresent(r) && SkillsLevelled(r)
    requires r.title != "" && r.summary != "" && r.themeColor != ""
    ensures Merge(d, SaveBody(r)) ==
              r.(id := d.id, userId := d.userId, createdAt := d.createdAt, updatedAt := d.updatedAt)
  {
    CastKeepsLevelled(r.skills.value);
  }

  /** Clearing the title or the summary in the editor is not saved: the
      empty string is falsy, so the stored value survives; an empty theme
      colour in the body is ignored the same way. The save reproduces each
      field exactly when it is non-empty or was already empty. */
  lemma ClearedTextNotSaved(d: Resume, r: Resume)
    ensures Merge(d, SaveBody(r)).summary == r.summary <==> (r.summary != "" || d.summary == "")
    ensures Merge(d, SaveBody(r)).title == r.title <==> (r.title != "" || d.title == "")
    ensures Merge(d, SaveBody(r)).themeColor == r.themeColor <==> (r.themeColor != "" || d.themeColor == "")
  {
    MergeFields(d, SaveBody(r));
  }

  /** Adding a skill with the editor's "Add" button and saving before typing
      its name fails validation: the default skill's name is the empty
      string and the schema requires it. The update then answers 500. */
  lemma {:induction false} DefaultSkillFailsValidation(d: Resume, r: Resume)
    ensures !SchemaValid(Merge(d, SaveBody(AppendItem(r, Skills, DefaultItem(Skills)))))
  {
    var r' := AppendItem(r, Skills, DefaultItem(Skills));
    var items := Items(r', Skills).value;
    var last := items[|items| - 1];
    assert last == DefaultItem(Skills);
    var c := CastSkills(items);
    assert c[|c| - 1] == WithSkillDefault(last) == last;
    assert c[|c| - 1] in c && !NamedSkill(last);
    MergeFields(d, SaveBody(r'));
  }

  /** A save followed by a reload shows what was saved: the merge of a
      save keeps every section present, so the load backfills nothing. */
  lemma SaveThenLoad(d: Resume, r: Resume)
    requires AllSectionsPresent(r)
    ensures Backfill(Merge(d, SaveBody(r))) == Merge(d, SaveBody(r))
  {
    MergeFields(d, SaveBody(r));
    var m := Merge(d, SaveBody(r));
    assert AllSectionsPresent(m) by {
      forall s ensures Items(m, s).Some? {
        assert PatchItems(SaveBody(r), s) == Items(r, s);
      }
    }
    BackfillStable(m);
  }
}
