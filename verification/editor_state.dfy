/** The editor's in-memory resume and the setters that replace it
    (client/src/pages/Editor.jsx). Every setter builds a new value from the
    previous one; the session object holds the current value. */
module EditorState {
  import opened Js
  import opened ResumeSchema

  /** The properties of `personalInfo` the form edits. */
  datatype InfoField = FullName | Email | Phone | Address | Linkedin | Website

  /** A value an entry property can be set to from the form. */
  datatype Value = Str(s: string) | Flag(b: bool)

  /** The fetched document with every missing section array replaced by `[]`. */
  function Backfill(fetched: Resume): (r: Resume)
    ensures AllSectionsPresent(r)
    ensures forall s :: Items(fetched, s).Some? ==> Items(r, s) == Items(fetched, s)
    ensures forall s :: Items(fetched, s).None? ==> Items(r, s) == Some([])
    ensures SameOutsideSections(r, fetched)
  {
    fetched.(experience := Some(OrEmpty(fetched.experience)),
             education := Some(OrEmpty(fetched.education)),
             skills := Some(OrEmpty(fetched.skills)),
             projects := Some(OrEmpty(fetched.projects)),
             responsibilities := Some(OrEmpty(fetched.responsibilities)),
             achievements := Some(OrEmpty(fetched.achievements)))
  }

  /** Backfilling twice is backfilling once; a document with every section
      is left as it is; entries stay in their own sections. */
  lemma BackfillStable(fetched: Resume)
    ensures Backfill(Backfill(fetched)) == Backfill(fetched)
    ensures AllSectionsPresent(fetched) ==> Backfill(fetched) == fetched
    ensures Conforms(fetched) ==> Conforms(Backfill(fetched))
  {
    var r := Backfill(fetched);
    if Conforms(fetched) {
      forall s, e | e in OrEmpty(Items(r, s)) ensures KindOf(e) == s {
        assert e in OrEmpty(Items(fetched, s));
      }
    }
  }

  /** `personalInfo[field]`. */
  function InfoOf(p: PersonalInfo, f: InfoField): Text {
    match f
    case FullName => p.fullName
    case Email => p.email
    case Phone => p.phone
    case Address => p.address
    case Linkedin => p.linkedin
    case Website => p.website
  }

  /** `handleChange('personalInfo', field, value)` as a value: sets exactly
      that property and keeps every other property and every other field. */
  function ChangeInfo(r: Resume, f: InfoField, v: string): (r': Resume)
    ensures InfoOf(r'.personalInfo, f) == Some(v)
    ensures forall g :: g != f ==> InfoOf(r'.personalInfo, g) == InfoOf(r.personalInfo, g)
    ensures r'.(personalInfo := r.personalInfo) == r
  {
    var p := r.personalInfo;
    r.(personalInfo :=
         match f
         case FullName => p.(fullName := Some(v))
         case Email => p.(email := Some(v))
         case Phone => p.(phone := Some(v))
         case Address => p.(address := Some(v))
         case Linkedin => p.(linkedin := Some(v))
         case Website => p.(website := Some(v)))
  }

  function TextValue(t: Text): Option<Value> {
    if t.Some? then Some(Str(t.value)) else None
  }

  function FlagValue(b: Option<bool>): Option<Value> {
    if b.Some? then Some(Flag(b.value)) else None
  }

  /** `entry[field]`, for a property the entry's record type carries. */
  function GetField(e: Entry, f: Field): Option<Value>
    requires f in FieldsOf(e)
  {
    match f
    case Institution => TextValue(e.institution)
    case Degree => TextValue(e.degree)
    case FieldOfStudy => TextValue(e.fieldOfStudy)
    case Company => TextValue(e.company)
    case Position => TextValue(e.position)
    case StartDate => TextValue(e.startDate)
    case EndDate => TextValue(e.endDate)
    case Current => FlagValue(e.current)
    case Description => TextValue(e.description)
    case Name => TextValue(e.name)
    case Level => TextValue(e.level)
    case Technologies => TextValue(e.technologies)
    case Link => TextValue(e.link)
    case Role => TextValue(e.role)
    case Organization => TextValue(e.organization)
    case Title => TextValue(e.title)
    case Date => TextValue(e.date)
    case Hidden => FlagValue(e.hidden)
  }

  /** The form only writes a property the entry's record type carries, a
      flag to `current` and `hidden`, and a string to everything else. */
  predicate Settable(e: Entry, f: Field, v: Value) {
    f in FieldsOf(e) && (v.Flag? <==> (f == Current || f == Hidden))
  }

  /** `{ ...entry, [field]: value }`: that property takes the value and every
      other property of the entry is kept. */
  function SetField(e: Entry, f: Field, v: Value): (e': Entry)
    requires Settable(e, f, v)
    ensures KindOf(e') == KindOf(e)
    ensures GetField(e', f) == Some(v)
  {
    match f
    case Institution => e.(institution := Some(v.s))
    case Degree => e.(degree := Some(v.s))
    case FieldOfStudy => e.(fieldOfStudy := Some(v.s))
    case Company => e.(company := Some(v.s))
    case Position => e.(position := Some(v.s))
    case StartDate => e.(startDate := Some(v.s))
    case EndDate => e.(endDate := Some(v.s))
    case Current => e.(current := Some(v.b))
    case Description => e.(description := Some(v.s))
    case Name => e.(name := Some(v.s))
    case Level => e.(level := Some(v.s))
    case Technologies => e.(technologies := Some(v.s))
    case Link => e.(link := Some(v.s))
    case Role => e.(role := Some(v.s))
    case Organization => e.(organization := Some(v.s))
    case Title => e.(title := Some(v.s))
    case Date => e.(date := Some(v.s))
    case Hidden => e.(hidden := Some(v.b))
  }

  /** Setting one property of an entry leaves every other property as it was. */
  lemma SetFieldFrame(e: Entry, f: Field, v: Value, g: Field)
    requires Settable(e, f, v) && g in FieldsOf(e) && g != f
    ensures GetField(SetField(e, f, v), g) == GetField(e, g)
  {
    match e
    case EducationEntry(_, _, _, _, _, _, _, _) => EducationEntryFrame(e, f, v, g);
    case ExperienceEntry(_, _, _, _, _, _, _) => ExperienceEntryFrame(e, f, v, g);
    case SkillEntry(_, _, _) => SkillEntryFrame(e, f, v, g);
    case ProjectEntry(_, _, _, _, _) => ProjectEntryFrame(e, f, v, g);
    case ResponsibilityEntry(_, _, _, _, _, _) => ResponsibilityEntryFrame(e, f, v, g);
    case AchievementEntry(_, _, _, _) => AchievementEntryFrame(e, f, v, g);
  }

  lemma EducationEntryFrame(e: Entry, f: Field, v: Value, g: Field)
    requires e.EducationEntry? && Settable(e, f, v) && g in FieldsOf(e) && g != f
    ensures GetField(SetField(e, f, v), g) == GetField(e, g)
  {
  }

  lemma ExperienceEntryFrame(e: Entry, f: Field, v: Value, g: Field)
    requires e.ExperienceEntry? && Settable(e, f, v) && g in FieldsOf(e) && g != f
    ensures GetField(SetField(e, f, v), g) == GetField(e, g)
  {
  }

  lemma SkillEntryFrame(e: Entry, f: Field, v: Value, g: Field)
    requires e.SkillEntry? && Settable(e, f, v) && g in FieldsOf(e) && g != f
    ensures GetField(SetField(e, f, v), g) == GetField(e, g)
  {
  }

  lemma ProjectEntryFrame(e: Entry, f: Field, v: Value, g: Field)
    requires e.ProjectEntry? && Settable(e, f, v) && g in FieldsOf(e) && g != f
    ensures GetField(SetField(e, f, v), g) == GetField(e, g)
  {
  }

  lemma ResponsibilityEntryFrame(e: Entry, f: Field, v: Value, g: Field)
    requires e.ResponsibilityEntry? && Settable(e, f, v) && g in FieldsOf(e) && g != f
    ensures GetField(SetField(e, f, v), g) == GetField(e, g)
  {
  }

  lemma AchievementEntryFrame(e: Entry, f: Field, v: Value, g: Field)
    requires e.AchievementEntry? && Settable(e, f, v) && g in FieldsOf(e) && g != f
    ensures GetField(SetField(e, f, v), g) == GetField(e, g)
  {
  }

  /** `!!entry.hidden`: a missing flag reads as shown. */
  predicate IsHidden(e: Entry) {
    e.hidden == Some(true)
  }

  /** The eye button: `handleArrayChange(section, i, 'hidden', !item.hidden)`. */
  function ToggledHidden(e: Entry): (e': Entry)
    ensures KindOf(e') == KindOf(e)
    ensures IsHidden(e') == !IsHidden(e)
  {
    SetField(e, Hidden, Flag(!IsHidden(e)))
  }

  /** Toggling twice leaves the flag set to its previous truth value (a
      missing flag becomes `false`) and every other property as it was. */
  lemma ToggleTwice(e: Entry)
    ensures ToggledHidden(ToggledHidden(e)) == e.(hidden := Some(IsHidden(e)))
    ensures e.hidden.Some? ==> ToggledHidden(ToggledHidden(e)) == e
  {
    if e.hidden.Some? {
      if e.hidden.value {
        assert e.hidden == Some(true);
      } else {
        assert e.hidden == Some(false);
      }
    }
  }

  /** The entry the "Add" button of each section appends. */
  function DefaultItem(s: Section): (e: Entry)
    ensures KindOf(e) == s && e.hidden == Some(false)
    ensures forall f :: f in FieldsOf(e) && f != Hidden && f != Current && f != FieldOfStudy ==>
              GetField(e, f) == Some(Str(if f == Level then "Technical" else ""))
  {
    match s
    case Education => EducationEntry(Some(""), Some(""), None, Some(""), Some(""), None, Some(""), Some(false))
    case Experience => ExperienceEntry(Some(""), Some(""), Some(""), Some(""), None, Some(""), Some(false))
    case Skills => SkillEntry(Some(""), Some("Technical"), Some(false))
    case Projects => ProjectEntry(Some(""), Some(""), Some(""), Some(""), Some(false))
    case Responsibilities => ResponsibilityEntry(Some(""), Some(""), Some(""), Some(""), Some(""), Some(false))
    case Achievements => AchievementEntry(Some(""), Some(""), Some(""), Some(false))
  }

  /** `addItem(section, item)`: `[...(prev[section] || []), item]`. */
  function AppendItem(r: Resume, s: Section, item: Entry): (r': Resume)
    ensures Items(r', s).Some?
    ensures |Items(r', s).value| == |OrEmpty(Items(r, s))| + 1
    ensures Items(r', s).value[..|OrEmpty(Items(r, s))|] == OrEmpty(Items(r, s))
    ensures Items(r', s).value[|OrEmpty(Items(r, s))|] == item
    ensures forall t :: t != s ==> Items(r', t) == Items(r, t)
    ensures SameOutsideSections(r', r)
  {
    WithItems(r, s, Some(OrEmpty(Items(r, s)) + [item]))
  }

  /** `array.filter((_, i) => i !== index)`, position by position. */
  function DropIndex<T>(a: seq<T>, index: nat): (r: seq<T>)
    ensures index < |a| ==> r == a[..index] + a[index + 1..]
    ensures index >= |a| ==> r == a
  {
    if a == [] then []
    else
      (if index == 0 then [] else [a[0]]) + DropIndex(a[1..], if index == 0 then |a| else index - 1)
  }

  /** `removeItem(section, index)`. */
  function RemoveAt(r: Resume, s: Section, index: nat): (r': Resume)
    requires Items(r, s).Some?
    ensures Items(r', s).Some?
    ensures var a := Items(r, s).value;
            index < |a| ==> Items(r', s).value == a[..index] + a[index + 1..]
    ensures index >= |Items(r, s).value| ==> r' == r
    ensures forall t :: t != s ==> Items(r', t) == Items(r, t)
    ensures SameOutsideSections(r', r)
  {
    WithItems(r, s, Some(DropIndex(Items(r, s).value, index)))
  }

  /** Adding an item and then removing the last one gives back the section. */
  lemma RemoveUndoesAppend(r: Resume, s: Section, item: Entry)
    requires Items(r, s).Some?
    ensures RemoveAt(AppendItem(r, s, item), s, |Items(r, s).value|) == r
  {
    var a := Items(r, s).value;
    var r' := AppendItem(r, s, item);
    assert (a + [item])[..|a|] + (a + [item])[|a| + 1..] == a;
    var r'' := RemoveAt(r', s, |a|);
    assert Items(r'', s) == Items(r, s);
    forall t ensures Items(r'', t) == Items(r, t) {
    }
  }

  /** Adding a default item, removing an item and editing a property keep
      every entry in the section of its own record type. */
  lemma EditsConform(r: Resume, s: Section, index: nat, f: Field, v: Value)
    requires Conforms(r)
    ensures Conforms(AppendItem(r, s, DefaultItem(s)))
    ensures Items(r, s).Some? ==> Conforms(RemoveAt(r, s, index))
    ensures Items(r, s).Some? && index < |Items(r, s).value| && Settable(Items(r, s).value[index], f, v) ==>
              var a := Items(r, s).value;
              Conforms(WithItems(r, s, Some(a[index := SetField(a[index], f, v)])))
  {
    var added := AppendItem(r, s, DefaultItem(s));
    forall t, e | e in OrEmpty(Items(added, t)) ensures KindOf(e) == t {
      if t == s && e !in OrEmpty(Items(r, s)) {
        assert e == DefaultItem(s);
      }
    }
    if Items(r, s).Some? {
      var a := Items(r, s).value;
      var removed := RemoveAt(r, s, index);
      forall t, e | e in OrEmpty(Items(removed, t)) ensures KindOf(e) == t {
        if t == s && index < |a| {
          assert e in a[..index] || e in a[index + 1..];
        }
      }
      if index < |a| && Settable(a[index], f, v) {
        var edited := WithItems(r, s, Some(a[index := SetField(a[index], f, v)]));
        forall t, e | e in OrEmpty(Items(edited, t)) ensures KindOf(e) == t {
          if t == s {
            var j :| 0 <= j < |a| && a[index := SetField(a[index], f, v)][j] == e;
            assert KindOf(a[j]) == s;
          }
        }
      }
    }
  }

  /** Two documents with the same sections agree on conformance. */
  lemma SectionsConform(a: Resume, b: Resume)
    requires forall s :: Items(a, s) == Items(b, s)
    requires Conforms(b)
    ensures Conforms(a)
  {
  }

  /** Appending an entry of the section's own record type keeps conformance. */
  lemma AppendConforms(r: Resume, s: Section, item: Entry)
    requires Conforms(r) && KindOf(item) == s
    ensures Conforms(AppendItem(r, s, item))
  {
    var added := AppendItem(r, s, item);
    forall t, e | e in OrEmpty(Items(added, t)) ensures KindOf(e) == t {
      if t == s && e !in OrEmpty(Items(r, s)) {
        assert e == item;
      }
    }
  }

  /** The editing session: the `resume` state cell and its setters. */
  class Session {
    var resume: Resume

    /** Once loaded, every section array is present and every entry sits in
        the section of its own record type. */
    ghost predicate Valid()
      reads this
    {
      AllSectionsPresent(resume) && Conforms(resume)
    }

    /** `fetchResume` succeeded: the state becomes the backfilled document. */
    constructor Load(fetched: Resume)
      requires Conforms(fetched)
      ensures Valid() && resume == Backfill(fetched)
    {
      BackfillStable(fetched);
      resume := Backfill(fetched);
    }

    /** The title input: `setResume({ ...resume, title })`. */
    method SetTitle(title: string)
      requires Valid()
      modifies this
      ensures Valid() && resume == old(resume).(title := title)
    {
      SectionsConform(resume.(title := title), resume);
      resume := resume.(title := title);
    }

    /** The objective textarea: `setResume({ ...resume, summary })`. */
    method SetSummary(summary: string)
      requires Valid()
      modifies this
      ensures Valid() && resume == old(resume).(summary := summary)
    {
      SectionsConform(resume.(summary := summary), resume);
      resume := resume.(summary := summary);
    }

    /** `handleChange('personalInfo', field, value)`. */
    method HandleChange(f: InfoField, v: string)
      requires Valid()
      modifies this
      ensures Valid() && resume == ChangeInfo(old(resume), f, v)
    {
      SectionsConform(ChangeInfo(resume, f, v), resume);
      resume := ChangeInfo(resume, f, v);
    }

    /** `handleArrayChange(section, index, field, value)`: copies the section
        into a fresh array, overwrites element `index` in place with the
        updated entry, and installs the copy. */
    method HandleArrayChange(s: Section, index: nat, f: Field, v: Value)
      requires Valid()
      requires index < |Items(resume, s).value|
      requires Settable(Items(resume, s).value[index], f, v)
      modifies this
      ensures Valid()
      ensures var a := Items(old(resume), s).value;
              resume == WithItems(old(resume), s, Some(a[index := SetField(a[index], f, v)]))
    {
      var items := Items(resume, s).value;
      var copy := new Entry[|items|](i requires 0 <= i < |items| => items[i]);
      assert copy[..] == items;
      copy[index] := SetField(copy[index], f, v);
      EditsConform(resume, s, index, f, v);
      resume := WithItems(resume, s, Some(copy[..]));
    }

    /** The eye button of entry `index`. */
    method ToggleHidden(s: Section, index: nat)
      requires Valid()
      requires index < |Items(resume, s).value|
      modifies this
      ensures Valid()
      ensures var a := Items(old(resume), s).value;
              resume == WithItems(old(resume), s, Some(a[index := ToggledHidden(a[index])]))
    {
      var item := Items(resume, s).value[index];
      HandleArrayChange(s, index, Hidden, Flag(!IsHidden(item)));
    }

    /** `addItem(section, item)`. */
    method AddItem(s: Section, item: Entry)
      requires Valid() && KindOf(item) == s
      modifies this
      ensures Valid() && resume == AppendItem(old(resume), s, item)
    {
      AppendConforms(resume, s, item);
      resume := AppendItem(resume, s, item);
    }

    /** `removeItem(section, index)`. */
    method RemoveItem(s: Section, index: nat)
      requires Valid()
      modifies this
      ensures Valid() && resume == RemoveAt(old(resume), s, index)
    {
      EditsConform(resume, s, index, Hidden, Flag(false));
      resume := RemoveAt(resume, s, index);
    }
  }
}
