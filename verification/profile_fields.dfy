/** The sparse field object `POST /api/profile` builds from its request body
    before writing, including the comma-separated skills list. */
module ProfileFields {
  import opened Base
  import opened JsArray
  import opened JsString
  import opened Validation

  /** The `social` sub-document: only the links that were given. */
  datatype Social = Social(youtube: Option<string>, twitter: Option<string>, facebook: Option<string>,
                           linkedin: Option<string>, instagram: Option<string>)

  /** The `profileFields` object: `user` always, every other top-level field
      only when it was provided, and `social` always. */
  datatype Fields = Fields(user: Id, company: Option<string>, website: Option<string>,
                           state: Option<string>, city: Option<string>, bio: Option<string>,
                           status: Option<string>, skills: Option<seq<string>>, social: Social)

  const ProfileRules: seq<Rule> := [
    NotEmpty("status", "Status is required"),
    NotEmpty("skills", "Skills is required")
  ]

  /** `v` is what a guarded copy of `field` leaves: set exactly when the field
      is truthy, and then to the field's value. */
  predicate CopiedIfTruthy(v: Option<string>, body: Body, field: string) {
    && (v.Some? <==> Truthy(body, field))
    && (v.Some? ==> field in body && v.value == body[field])
  }

  /** Trimming a comma-free piece leaves a comma-free infix of it. */
  lemma {:induction false} TrimmedPiece(piece: string)
    requires ',' !in piece
    ensures ',' !in Trim(piece)
  {
    var t := Trim(piece);
    var k: nat :| k <= |piece| && CutFrom(piece, k, t);
    InfixAvoids(piece, k, t, ',');
  }

  /** `skills.split(',').map(skill => skill.trim())`: one entry per
      comma-separated piece, in order, each with its surrounding whitespace
      cut away. */
  function SkillList(skills: string): (r: seq<string>)
    ensures |r| == multiset(skills)[','] + 1
    ensures forall i :: 0 <= i < |r| ==> ',' !in r[i]
    ensures forall i :: 0 <= i < |r| ==> IsTrimOf(Split(skills, ',')[i], r[i])
  {
    var r := Map(Split(skills, ','), Trim);
    TrimmedPieces(Split(skills, ','), r);
    r
  }

  lemma {:induction false} TrimmedPieces(pieces: seq<string>, r: seq<string>)
    requires forall i :: 0 <= i < |pieces| ==> ',' !in pieces[i]
    requires r == Map(pieces, Trim)
    ensures forall i :: 0 <= i < |r| ==> ',' !in r[i]
    ensures forall i :: 0 <= i < |r| ==> IsTrimOf(pieces[i], r[i])
  {
    forall i | 0 <= i < |r|
      ensures ',' !in r[i]
      ensures IsTrimOf(pieces[i], r[i])
    {
      var t := Trim(pieces[i]);
      assert r[i] == t;
      TrimmedPiece(pieces[i]);
    }
  }

  /** Skills that are already trimmed and comma-free survive a join with ','
      followed by the split-and-trim. */
  lemma {:induction false} SkillListOfJoin(skills: seq<string>)
    requires |skills| > 0
    requires forall i :: 0 <= i < |skills| ==> Trimmed(skills[i]) && ',' !in skills[i]
    ensures SkillList(Join(skills, ',')) == skills
  {
    var joined := Join(skills, ',');
    SplitJoin(skills, ',');
    assert SkillList(joined) == Map(skills, Trim);
    forall i | 0 <= i < |skills|
      ensures Trim(skills[i]) == skills[i]
    {
      TrimOfTrimmed(skills[i]);
    }
  }

  /** The builder: a guarded copy of every top-level field, the skills list
      when skills are given, and a freshly built `social` object. */
  function BuildFields(body: Body, caller: Id): (f: Fields)
    ensures f.user == caller
    ensures CopiedIfTruthy(f.company, body, "company") && CopiedIfTruthy(f.website, body, "website")
    ensures CopiedIfTruthy(f.state, body, "state") && CopiedIfTruthy(f.city, body, "city")
    ensures CopiedIfTruthy(f.bio, body, "bio") && CopiedIfTruthy(f.status, body, "status")
    ensures f.skills.Some? <==> Truthy(body, "skills")
    ensures f.skills.Some? ==> "skills" in body && f.skills.value == SkillList(body["skills"])
    ensures CopiedIfTruthy(f.social.youtube, body, "youtube") && CopiedIfTruthy(f.social.twitter, body, "twitter")
    ensures CopiedIfTruthy(f.social.facebook, body, "facebook") && CopiedIfTruthy(f.social.linkedin, body, "linkedin")
    ensures CopiedIfTruthy(f.social.instagram, body, "instagram")
  {
    var social := Social(IfTruthy(body, "youtube"), IfTruthy(body, "twitter"), IfTruthy(body, "facebook"),
                         IfTruthy(body, "linkedin"), IfTruthy(body, "instagram"));
    Fields(caller, IfTruthy(body, "company"), IfTruthy(body, "website"), IfTruthy(body, "state"),
           IfTruthy(body, "city"), IfTruthy(body, "bio"), IfTruthy(body, "status"),
           SkillsField(body), social)
  }

  /** `if (skills) { profileFields.skills = ... }`. */
  function SkillsField(body: Body): (skills: Option<seq<string>>)
    ensures skills.Some? <==> Truthy(body, "skills")
    ensures skills.Some? ==> "skills" in body && skills.value == SkillList(body["skills"])
  {
    if Truthy(body, "skills") then Some(SkillList(body["skills"])) else None
  }

  /** A body that passes validation always yields a status and a skills list. */
  lemma ValidBodyHasStatusAndSkills(body: Body, caller: Id, isEmail: string -> bool)
    requires Violations(ProfileRules, body, isEmail) == []
    ensures BuildFields(body, caller).status.Some?
    ensures BuildFields(body, caller).skills.Some?
  {
    assert Passes(ProfileRules[0], body, isEmail) && Passes(ProfileRules[1], body, isEmail);
  }
}
