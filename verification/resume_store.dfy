/** The REST handlers of server/routes/resumeRoutes.js as operations on an
    in-memory document collection. The database becomes a map from ids to
    documents; the wall clock becomes the `now` argument of the writes. */
module ResumeStore {
  import opened Js
  import opened ResumeSchema

  const USER_ID_REQUIRED := "User ID is required"
  const NOT_FOUND := "Resume not found"
  const REMOVED := "Resume removed"
  const PLACEHOLDER_NAME := "John Doe"
  const PLACEHOLDER_EMAIL := "john@example.com"

  /** A JSON response body. ValidationError stands for the 500 response
      a failed schema validation produces. */
  datatype Body = Doc(doc: Resume) | Docs(docs: seq<Resume>) | Message(text: string) | ValidationError

  datatype Response = Response(status: nat, body: Body)

  /** The ten fields a PUT body is read for; each is None when absent or null. */
  datatype Patch = Patch(
    title: Text,
    personalInfo: Option<PersonalInfo>,
    summary: Text,
    education: Option<seq<Entry>>,
    experience: Option<seq<Entry>>,
    skills: Option<seq<Entry>>,
    projects: Option<seq<Entry>>,
    responsibilities: Option<seq<Entry>>,
    achievements: Option<seq<Entry>>,
    themeColor: Text)

  /** `req.body[section]`. */
  function PatchItems(p: Patch, s: Section): Option<seq<Entry>> {
    match s
    case Education => p.education
    case Experience => p.experience
    case Skills => p.skills
    case Projects => p.projects
    case Responsibilities => p.responsibilities
    case Achievements => p.achievements
  }

  /** A body that carries none of the ten fields. */
  const EMPTY_PATCH := Patch(None, None, None, None, None, None, None, None, None, None)

  /** The document the POST handler builds and saves: the given owner, the
      given title or the placeholder, a placeholder name and email, every
      other field at its schema default and every section empty. */
  function NewResume(id: Id, userId: string, title: Text, now: nat): (d: Resume)
    ensures d.id == id && d.userId == userId
    ensures Truthy(title) ==> d.title == title.value
    ensures !Truthy(title) ==> d.title == UNTITLED
    ensures d.personalInfo == PersonalInfo(Some(PLACEHOLDER_NAME), Some(PLACEHOLDER_EMAIL),
                                           Some(""), Some(""), Some(""), Some(""))
    ensures d.summary == "" && d.themeColor == DEFAULT_THEME_COLOR
    ensures forall s :: Items(d, s) == Some([])
    ensures d.createdAt == d.updatedAt == now
    ensures SchemaValid(d) <==> userId != ""
  {
    var base := Defaults(id, userId, now);
    base.(title := OrElse(title, UNTITLED),
          personalInfo := base.personalInfo.(fullName := Some(PLACEHOLDER_NAME),
                                             email := Some(PLACEHOLDER_EMAIL)))
  }

  /** The truthy merge of the PUT handler, field by field `body.f || doc.f`.
      Assigning a `skills` array casts it into skill subdocuments. */
  function Merge(d: Resume, p: Patch): (r: Resume)
    ensures r.id == d.id && r.userId == d.userId
    ensures r.createdAt == d.createdAt && r.updatedAt == d.updatedAt
    ensures d.title != "" ==> r.title != ""
    ensures AllSectionsPresent(d) ==> AllSectionsPresent(r)
  {
    d.(title := OrElse(p.title, d.title),
       personalInfo := PresentOr(p.personalInfo, d.personalInfo),
       summary := OrElse(p.summary, d.summary),
       education := if p.education.Some? then p.education else d.education,
       experience := if p.experience.Some? then p.experience else d.experience,
       skills := if p.skills.Some? then Some(CastSkills(p.skills.value)) else d.skills,
       projects := if p.projects.Some? then p.projects else d.projects,
       responsibilities := if p.responsibilities.Some? then p.responsibilities else d.responsibilities,
       achievements := if p.achievements.Some? then p.achievements else d.achievements,
       themeColor := OrElse(p.themeColor, d.themeColor))
  }

  /** What the truthy merge promises, field by field: a non-empty string
      replaces, an empty or missing one keeps the old value; any present
      array or object replaces, the empty array included. */
  lemma MergeFields(d: Resume, p: Patch)
    ensures Merge(d, p).title == (if Truthy(p.title) then p.title.value else d.title)
    ensures Merge(d, p).summary == (if Truthy(p.summary) then p.summary.value else d.summary)
    ensures Merge(d, p).themeColor == (if Truthy(p.themeColor) then p.themeColor.value else d.themeColor)
    ensures p.title == Some("") ==> Merge(d, p).title == d.title
    ensures Merge(d, p).personalInfo == (if p.personalInfo.Some? then p.personalInfo.value else d.personalInfo)
    ensures forall s :: s != Skills ==>
              Items(Merge(d, p), s) == (if PatchItems(p, s).Some? then PatchItems(p, s) else Items(d, s))
    ensures forall s :: PatchItems(p, s) == Some([]) ==> Items(Merge(d, p), s) == Some([])
    ensures p.skills.Some? ==> Items(Merge(d, p), Skills) == Some(CastSkills(p.skills.value))
    ensures p.skills.None? ==> Items(Merge(d, p), Skills) == d.skills
  {
  }

  /** Merging is idempotent, and a body without any of the ten fields changes nothing. */
  lemma MergeIdempotent(d: Resume, p: Patch)
    ensures Merge(Merge(d, p), p) == Merge(d, p)
    ensures Merge(d, EMPTY_PATCH) == d
  {
  }

  /** A merge keeps the document valid unless the body brings a skill without a name. */
  lemma MergeKeepsValid(d: Resume, p: Patch)
    requires SchemaValid(d)
    ensures SchemaValid(Merge(d, p)) <==>
              (p.skills.None? || forall e :: e in p.skills.value ==> NamedSkill(e))
  {
    var r := Merge(d, p);
    if p.skills.Some? {
      var a := p.skills.value;
      var c := CastSkills(a);
      assert r.skills == Some(c);
      if forall e :: e in a ==> NamedSkill(e) {
        forall e | e in c ensures NamedSkill(e) {
          var i :| 0 <= i < |c| && c[i] == e;
          assert NamedSkill(a[i]);
        }
      } else {
        var e :| e in a && !NamedSkill(e);
        var i :| 0 <= i < |a| && a[i] == e;
        assert c[i] in c && !NamedSkill(c[i]);
      }
    }
  }

  /** The body of the PUT handler before `save()`: the fetched document's
      fields are overwritten one statement at a time. */
  method ApplyBody(d: Resume, p: Patch) returns (resume: Resume)
    ensures resume == Merge(d, p)
  {
    resume := d;
    resume := resume.(title := OrElse(p.title, resume.title));
    resume := resume.(personalInfo := PresentOr(p.personalInfo, resume.personalInfo));
    resume := resume.(summary := OrElse(p.summary, resume.summary));
    resume := resume.(education := if p.education.Some? then p.education else resume.education);
    resume := resume.(experience := if p.experience.Some? then p.experience else resume.experience);
    resume := resume.(skills := if p.skills.Some? then Some(CastSkills(p.skills.value)) else resume.skills);
    resume := resume.(projects := if p.projects.Some? then p.projects else resume.projects);
    resume := resume.(responsibilities :=
                        if p.responsibilities.Some? then p.responsibilities else resume.responsibilities);
    resume := resume.(achievements := if p.achievements.Some? then p.achievements else resume.achievements);
    resume := resume.(themeColor := OrElse(p.themeColor, resume.themeColor));
  }

  /** What `save()` stores: the timestamp `updatedAt` moves to `now` only
      when the merge changed the document. */
  function Saved(prev: Resume, merged: Resume, now: nat): (r: Resume)
    ensures r.createdAt == merged.createdAt
    ensures merged == prev ==> r == prev
    ensures merged != prev ==> r == merged.(updatedAt := now)
  {
    if merged == prev then prev else merged.(updatedAt := now)
  }

  /** Sorted by `updatedAt`, most recent first. */
  predicate NewestFirst(rs: seq<Resume>) {
    forall i, j :: 0 <= i < j < |rs| ==> rs[i].updatedAt >= rs[j].updatedAt
  }

  /** Inserts one document into a list that is newest first, after the
      documents at least as recent as it. */
  function InsertNewestFirst(d: Resume, rs: seq<Resume>): (r: seq<Resume>)
    ensures multiset(r) == multiset(rs) + multiset{d}
  {
    if rs == [] || rs[0].updatedAt < d.updatedAt then [d] + rs
    else
      assert rs == [rs[0]] + rs[1..];
      [rs[0]] + InsertNewestFirst(d, rs[1..])
  }

  /** Insertion keeps a newest-first list newest first. */
  lemma {:induction false} InsertKeepsNewestFirst(d: Resume, rs: seq<Resume>)
    requires NewestFirst(rs)
    ensures NewestFirst(InsertNewestFirst(d, rs))
  {
    var r := InsertNewestFirst(d, rs);
    if rs == [] || rs[0].updatedAt < d.updatedAt {
      assert r == [d] + rs;
      forall i, j | 0 <= i < j < |r| ensures r[i].updatedAt >= r[j].updatedAt {
        if i == 0 {
          assert r[j] == rs[j - 1];
          assert rs[0].updatedAt >= rs[j - 1].updatedAt;
        } else {
          assert r[i] == rs[i - 1] && r[j] == rs[j - 1];
        }
      }
    } else {
      var tail := InsertNewestFirst(d, rs[1..]);
      InsertKeepsNewestFirst(d, rs[1..]);
      assert r == [rs[0]] + tail;
      forall i, j | 0 <= i < j < |r| ensures r[i].updatedAt >= r[j].updatedAt {
        if i == 0 {
          var x := tail[j - 1];
          assert x in multiset(tail);
          if x in multiset(rs[1..]) {
            var k :| 0 <= k < |rs[1..]| && rs[1..][k] == x;
            assert rs[k + 1] == x;
          }
        } else {
          assert r[i] == tail[i - 1] && r[j] == tail[j - 1];
        }
      }
    }
  }

  /** Ids are below the next id to hand out and agree with the keys; every
      stored document passed validation and has all six sections. */
  ghost predicate ValidDocs(docs: map<Id, Resume>, nextId: Id) {
    forall k :: k in docs ==>
      && k < nextId
      && docs[k].id == k
      && SchemaValid(docs[k])
      && AllSectionsPresent(docs[k])
  }

  /** Storing a valid document under its own existing id keeps the invariant. */
  lemma ReplaceKeepsValid(docs: map<Id, Resume>, nextId: Id, id: Id, d: Resume)
    requires ValidDocs(docs, nextId) && id in docs
    requires d.id == id && SchemaValid(d) && AllSectionsPresent(d)
    ensures ValidDocs(docs[id := d], nextId)
  {
  }

  /** The resume collection. */
  class Store {
    var docs: map<Id, Resume>
    var nextId: Id

    /** The collection satisfies `ValidDocs`. */
    ghost predicate Valid()
      reads this
    {
      ValidDocs(docs, nextId)
    }

    /** The document `d` is the one stored under its id. */
    ghost predicate Stored(d: Resume)
      reads this
    {
      d.id in docs && docs[d.id] == d
    }

    constructor ()
      ensures Valid() && docs == map[]
    {
      docs := map[];
      nextId := 0;
    }

    /** GET `/?userId=`: every stored document of that owner exactly once,
        most recently updated first. */
    method List(userId: Text) returns (res: Response)
      requires Valid()
      ensures !Truthy(userId) ==> res == Response(400, Message(USER_ID_REQUIRED))
      ensures Truthy(userId) ==> res.status == 200 && res.body.Docs?
      ensures Truthy(userId) ==> NewestFirst(res.body.docs)
      ensures Truthy(userId) ==> forall d :: multiset(res.body.docs)[d] ==
                                   (if Stored(d) && d.userId == userId.value then 1 else 0)
    {
      if !Truthy(userId) {
        res := Response(400, Message(USER_ID_REQUIRED));
        return;
      }
      var u := userId.value;
      var pending := docs.Keys;
      var found: seq<Resume> := [];
      while pending != {}
        invariant pending <= docs.Keys
        invariant NewestFirst(found)
        invariant forall d :: multiset(found)[d] ==
                    (if Stored(d) && d.userId == u && d.id !in pending then 1 else 0)
        decreases pending
      {
        var k :| k in pending;
        pending := pending - {k};
        if docs[k].userId == u {
          InsertKeepsNewestFirst(docs[k], found);
          found := InsertNewestFirst(docs[k], found);
        }
      }
      res := Response(200, Docs(found));
    }

    /** GET `/:id`. */
    method Get(id: Id) returns (res: Response)
      ensures id in docs ==> res == Response(200, Doc(docs[id]))
      ensures id !in docs ==> res == Response(404, Message(NOT_FOUND))
    {
      if id in docs {
        res := Response(200, Doc(docs[id]));
      } else {
        res := Response(404, Message(NOT_FOUND));
      }
    }

    /** POST `/`: a missing or empty owner is refused before anything is
        stored; otherwise one new document is added under a fresh id. */
    method Create(title: Text, userId: Text, now: nat) returns (res: Response)
      requires Valid()
      modifies this
      ensures Valid()
      ensures !Truthy(userId) ==>
                res == Response(400, Message(USER_ID_REQUIRED)) && docs == old(docs)
      ensures Truthy(userId) ==>
                var d := NewResume(old(nextId), userId.value, title, now);
                && old(nextId) !in old(docs)
                && docs == old(docs)[old(nextId) := d]
                && res == Response(201, Doc(d))
    {
      if !Truthy(userId) {
        res := Response(400, Message(USER_ID_REQUIRED));
        return;
      }
      var d := NewResume(nextId, userId.value, title, now);
      docs := docs[nextId := d];
      nextId := nextId + 1;
      res := Response(201, Doc(d));
    }

    /** PUT `/:id`: overwrites the fields one statement at a time, then saves;
        a document that fails validation is not stored. */
    method Update(id: Id, body: Patch, now: nat) returns (res: Response)
      requires Valid()
      modifies this`docs
      ensures Valid()
      ensures id !in old(docs) ==> res == Response(404, Message(NOT_FOUND)) && docs == old(docs)
      ensures id in old(docs) && !SchemaValid(Merge(old(docs)[id], body)) ==>
                res == Response(500, ValidationError) && docs == old(docs)
      ensures id in old(docs) && SchemaValid(Merge(old(docs)[id], body)) ==>
                var d := Saved(old(docs)[id], Merge(old(docs)[id], body), now);
                docs == old(docs)[id := d] && res == Response(200, Doc(d))
    {
      if id !in docs {
        res := Response(404, Message(NOT_FOUND));
        return;
      }
      var resume := ApplyBody(docs[id], body);
      if !SchemaValid(resume) {
        res := Response(500, ValidationError);
        return;
      }
      var saved := Saved(docs[id], resume, now);
      ReplaceKeepsValid(docs, nextId, id, saved);
      docs := docs[id := saved];
      res := Response(200, Doc(saved));
    }

    /** DELETE `/:id`: removes exactly that document. */
    method Delete(id: Id) returns (res: Response)
      requires Valid()
      modifies this`docs
      ensures Valid()
      ensures id in old(docs) ==> docs == old(docs) - {id} && res == Response(200, Message(REMOVED))
      ensures id !in old(docs) ==> docs == old(docs) && res == Response(404, Message(NOT_FOUND))
    {
      if id in docs {
        docs := docs - {id};
        assert forall k :: k in docs ==> k in old(docs) && docs[k] == old(docs)[k];
        res := Response(200, Message(REMOVED));
      } else {
        res := Response(404, Message(NOT_FOUND));
      }
    }
  }

  /** A session against a fresh store: create, list, update, get, delete. */
  method StoreScenario()
  {
    var store := new Store();
    var created := store.Create(Some("New Edition"), Some("user_abc123"), 1);
    assert created.status == 201;
    var d := created.body.doc;
    assert d.personalInfo.fullName == Some(PLACEHOLDER_NAME) && d.education == Some([]);

    var listed := store.List(Some("user_abc123"));
    assert multiset(listed.body.docs)[d] == 1;

    var skill := SkillEntry(Some("Go, SQL"), Some("Technical"), None);
    var body := EMPTY_PATCH.(skills := Some([skill]));
    var updated := store.Update(d.id, body, 2);
    assert CastSkills([skill]) == [skill];
    assert updated.status == 200;
    var got := store.Get(d.id);
    assert got.body.doc.skills == Some([skill]);

    var removed := store.Delete(d.id);
    assert removed == Response(200, Message(REMOVED));
    got := store.Get(d.id);
    assert got.status == 404;
  }
}
