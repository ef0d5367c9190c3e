/** The `/api/profile` routes over the profile collection: upsert, lookups,
    account deletion, and the experience and education lists. */
module Profiles {
  import opened Base
  import opened Http
  import opened JsArray
  import opened Validation
  import opened Foreign
  import opened Users
  import opened ProfileFields

  datatype Experience = Experience(id: Id, title: string, company: string, state: Option<string>,
                                   city: Option<string>, from: string, to: string,
                                   current: Option<string>, description: Option<string>)

  datatype Education = Education(id: Id, school: string, degree: string, fieldOfStudy: string,
                                 from: string, to: string, current: Option<string>,
                                 description: Option<string>)

  /** A stored profile; `experience` and `education` are newest first. */
  datatype Profile = Profile(user: Id, company: Option<string>, website: Option<string>,
                             state: Option<string>, city: Option<string>, bio: Option<string>,
                             status: Option<string>, skills: seq<string>, social: Social,
                             experience: seq<Experience>, education: seq<Education>)

  /** The profile collection, in natural order: `findOne` returns the first match. */
  type ProfileStore = seq<Profile>

  /** `Profile.findOne({ user })`, as an index into the collection, or -1. */
  function IndexOfOwner(profiles: ProfileStore, user: Id): (i: int)
    ensures -1 <= i < |profiles|
    ensures i == -1 <==> forall j :: 0 <= j < |profiles| ==> profiles[j].user != user
    ensures 0 <= i ==> profiles[i].user == user && forall j :: 0 <= j < i ==> profiles[j].user != user
  {
    var owners := Map(profiles, (p: Profile) => p.user);
    var i := IndexOf(owners, user);
    assert 0 <= i ==> forall j :: 0 <= j < i ==> owners[..i][j] == owners[j];
    i
  }

  /** At most one profile per user. */
  predicate OnePerUser(profiles: ProfileStore) {
    forall i, j :: 0 <= i < |profiles| && 0 <= j < |profiles| && profiles[i].user == profiles[j].user ==> i == j
  }

  /** `$set` of one optional field: a value that was built replaces the stored one. */
  function SetIfGiven<T>(stored: Option<T>, given: Option<T>): Option<T> {
    if given.Some? then given else stored
  }

  /** `findOneAndUpdate({ user }, { $set: fields })` on one stored profile. */
  function ApplyFields(p: Profile, f: Fields): (q: Profile)
    ensures q.user == f.user && q.social == f.social
    ensures q.company == (if f.company.Some? then f.company else p.company)
    ensures q.website == (if f.website.Some? then f.website else p.website)
    ensures q.state == (if f.state.Some? then f.state else p.state)
    ensures q.city == (if f.city.Some? then f.city else p.city)
    ensures q.bio == (if f.bio.Some? then f.bio else p.bio)
    ensures q.status == (if f.status.Some? then f.status else p.status)
    ensures q.skills == (if f.skills.Some? then f.skills.value else p.skills)
    ensures q.experience == p.experience && q.education == p.education
  {
    Profile(f.user, SetIfGiven(p.company, f.company), SetIfGiven(p.website, f.website),
            SetIfGiven(p.state, f.state), SetIfGiven(p.city, f.city),
            SetIfGiven(p.bio, f.bio), SetIfGiven(p.status, f.status),
            SetIfGiven(Some(p.skills), f.skills).value, f.social, p.experience, p.education)
  }

  /** `new Profile(fields)`: absent lists take the schema's empty default. */
  function NewProfile(f: Fields): (p: Profile)
    ensures p.user == f.user && p.social == f.social
    ensures p.company == f.company && p.website == f.website && p.state == f.state
    ensures p.city == f.city && p.bio == f.bio && p.status == f.status
    ensures p.skills == (if f.skills.Some? then f.skills.value else [])
    ensures p.experience == [] && p.education == []
  {
    Profile(f.user, f.company, f.website, f.state, f.city, f.bio, f.status,
            SetIfGiven(Some([]), f.skills).value, f.social, [], [])
  }

  /** `POST /api/profile`: validate, build the sparse fields, then update the
      caller's profile in place or create it. */
  function SaveProfile(profiles: ProfileStore, caller: Id, body: Body, env: Env): (r: Step<ProfileStore, Profile>)
    ensures r.reply.Err? ==> r.store == profiles
    ensures Violations(ProfileRules, body, env.isEmail) != [] ==>
              r.reply == Err(Reject(Violations(ProfileRules, body, env.isEmail)))
    ensures Violations(ProfileRules, body, env.isEmail) == [] ==> r.reply.Ok?
    ensures r.reply.Ok? && IndexOfOwner(profiles, caller) >= 0 ==>
              var i := IndexOfOwner(profiles, caller);
              && r.reply.value == ApplyFields(profiles[i], BuildFields(body, caller))
              && |r.store| == |profiles| && r.store[i] == r.reply.value
              && forall j :: 0 <= j < |profiles| && j != i ==> r.store[j] == profiles[j]
    ensures r.reply.Ok? && IndexOfOwner(profiles, caller) == -1 ==>
              && r.reply.value == NewProfile(BuildFields(body, caller))
              && r.store == profiles + [r.reply.value]
  {
    var errors := Violations(ProfileRules, body, env.isEmail);
    if errors != [] then Step(profiles, Err(Reject(errors)))
    else
      var fields := BuildFields(body, caller);
      var i := IndexOfOwner(profiles, caller);
      if i >= 0 then
        var updated := ApplyFields(profiles[i], fields);
        Step(profiles[i := updated], Ok(updated))
      else
        var created := NewProfile(fields);
        Step(profiles + [created], Ok(created))
  }

  lemma {:induction false} AppendKeepsOnePerUser(profiles: ProfileStore, p: Profile)
    requires OnePerUser(profiles)
    requires forall j :: 0 <= j < |profiles| ==> profiles[j].user != p.user
    ensures OnePerUser(profiles + [p])
  {
    var s := profiles + [p];
    assert forall i :: 0 <= i < |profiles| ==> s[i] == profiles[i];
  }

  /** Saving keeps one profile per user, leaves the caller with a profile,
      and a later `GET /me` returns exactly what the save replied. */
  lemma {:induction false} SaveProfileKeepsOnePerUser(profiles: ProfileStore, caller: Id, body: Body, env: Env)
    requires OnePerUser(profiles)
    ensures OnePerUser(SaveProfile(profiles, caller, body, env).store)
    ensures var r := SaveProfile(profiles, caller, body, env);
            r.reply.Ok? ==> GetMe(r.store, caller) == Ok(r.reply.value)
  {
    var r := SaveProfile(profiles, caller, body, env);
    if r.reply.Ok? {
      var i := IndexOfOwner(profiles, caller);
      var s := r.store;
      if i >= 0 {
        assert forall j :: 0 <= j < |s| ==> s[j].user == profiles[j].user;
        assert IndexOfOwner(s, caller) == i;
      } else {
        assert s == profiles + [r.reply.value];
        AppendKeepsOnePerUser(profiles, r.reply.value);
        assert s[|profiles|] == r.reply.value;
        assert forall j :: 0 <= j < |profiles| ==> s[j] == profiles[j];
        assert IndexOfOwner(s, caller) == |profiles|;
      }
    }
  }

  const NoProfile: Failure := MsgFailure(StatusBadRequest, "There is no profile for this user")
  const ProfileNotFound: Failure := MsgFailure(StatusBadRequest, "Profile not found")

  /** `GET /api/profile/me`: the caller's profile, or 400. */
  function GetMe(profiles: ProfileStore, caller: Id): (r: Result<Profile>)
    ensures r.Err? <==> forall j :: 0 <= j < |profiles| ==> profiles[j].user != caller
    ensures r.Err? ==> r.failure == NoProfile
    ensures r.Ok? ==> r.value in profiles && r.value.user == caller
  {
    var i := IndexOfOwner(profiles, caller);
    if i < 0 then Err(NoProfile) else Ok(profiles[i])
  }

  /** `GET /api/profile/user/:user_id`: a malformed id reads as "not found". */
  function GetByUser(profiles: ProfileStore, userId: Id, env: Env): (r: Result<Profile>)
    ensures r.Err? <==> !env.isObjectId(userId) || forall j :: 0 <= j < |profiles| ==> profiles[j].user != userId
    ensures r.Err? ==> r.failure == ProfileNotFound
    ensures r.Ok? ==> r.value in profiles && r.value.user == userId
  {
    if !env.isObjectId(userId) then Err(ProfileNotFound)
    else
      var i := IndexOfOwner(profiles, userId);
      if i < 0 then Err(ProfileNotFound) else Ok(profiles[i])
  }

  /** `findOneAndRemove`: drop the element at index `i`, or nothing when `i` is -1. */
  function RemoveAt<T>(s: seq<T>, i: int): (r: seq<T>)
    requires -1 <= i < |s|
    ensures i == -1 ==> r == s
    ensures 0 <= i ==> |r| == |s| - 1 && r[..i] == s[..i] && r[i..] == s[i + 1..]
    ensures 0 <= i ==> forall j :: 0 <= j < |r| ==> r[j] == s[if j < i then j else j + 1]
  {
    if i < 0 then s else s[..i] + s[i + 1..]
  }

  /** The two collections account deletion touches. Posts are not among them:
      deleting an account leaves the caller's posts in place. */
  datatype Accounts = Accounts(users: UserStore, profiles: ProfileStore)

  /** `DELETE /api/profile`: remove the caller's profile, then the caller's
      user document; other documents keep their order. */
  function DeleteAccount(accounts: Accounts, caller: Id): (r: Step<Accounts, string>)
    ensures r.reply == Ok("User deleted")
    ensures r.store.profiles == RemoveAt(accounts.profiles, IndexOfOwner(accounts.profiles, caller))
    ensures r.store.users == RemoveAt(accounts.users, IndexOfId(accounts.users, caller))
  {
    var profiles := RemoveAt(accounts.profiles, IndexOfOwner(accounts.profiles, caller));
    var users := RemoveAt(accounts.users, IndexOfId(accounts.users, caller));
    Step(Accounts(users, profiles), Ok("User deleted"))
  }

  /** Removing index `i` from a sequence in which only `s[i]` can belong to
      `owner` leaves nothing of the owner's and keeps everything else. */
  lemma {:induction false} RemoveOnlyOwned<T>(s: seq<T>, key: T -> Id, owner: Id, i: int)
    requires -1 <= i < |s|
    requires 0 <= i ==> key(s[i]) == owner
    requires forall j :: 0 <= j < |s| && j != i ==> key(s[j]) != owner
    ensures forall j :: 0 <= j < |RemoveAt(s, i)| ==> key(RemoveAt(s, i)[j]) != owner
    ensures forall x :: x in s && key(x) != owner ==> x in RemoveAt(s, i)
  {
    var r := RemoveAt(s, i);
    if 0 <= i {
      forall j | 0 <= j < |r|
        ensures key(r[j]) != owner
      {
        assert r[j] == s[if j < i then j else j + 1];
      }
      forall x | x in s && key(x) != owner
        ensures x in r
      {
        var j :| 0 <= j < |s| && s[j] == x;
        assert j != i;
        assert r[if j < i then j else j - 1] == x;
      }
    }
  }

  /** With one profile per user, the first profile of an owner is the only one. */
  lemma {:induction false} OnlyProfileOfOwner(ps: ProfileStore, owner: Id)
    requires OnePerUser(ps)
    ensures forall j :: 0 <= j < |ps| && j != IndexOfOwner(ps, owner) ==> ps[j].user != owner
  {
  }

  /** With unique ids, the first user with an id is the only one. */
  lemma {:induction false} OnlyUserWithId(us: UserStore, id: Id)
    requires IdsUnique(us)
    ensures forall j :: 0 <= j < |us| && j != IndexOfId(us, id) ==> us[j].id != id
  {
  }

  /** With one profile per user and unique user ids, nothing of the caller's
      is left in either collection, and exactly the caller's documents are gone. */
  lemma {:induction false} DeleteAccountRemovesCaller(accounts: Accounts, caller: Id)
    requires OnePerUser(accounts.profiles) && IdsUnique(accounts.users)
    ensures var after := DeleteAccount(accounts, caller).store;
            && (forall j :: 0 <= j < |after.profiles| ==> after.profiles[j].user != caller)
            && (forall j :: 0 <= j < |after.users| ==> after.users[j].id != caller)
            && (forall p :: p in accounts.profiles && p.user != caller ==> p in after.profiles)
            && (forall u :: u in accounts.users && u.id != caller ==> u in after.users)
  {
    var ps, us := accounts.profiles, accounts.users;
    OnlyProfileOfOwner(ps, caller);
    RemoveOnlyOwned(ps, (p: Profile) => p.user, caller, IndexOfOwner(ps, caller));
    OnlyUserWithId(us, caller);
    RemoveOnlyOwned(us, (u: User) => u.id, caller, IndexOfId(us, caller));
  }

  const ExperienceRules: seq<Rule> := [
    NotEmpty("title", "Title is required"),
    NotEmpty("company", "Company is required"),
    NotEmpty("from", "From date is required"),
    NotEmpty("to", "To date is required")
  ]

  const EducationRules: seq<Rule> := [
    NotEmpty("school", "School is required"),
    NotEmpty("degree", "Degree is required"),
    NotEmpty("fieldofstudy", "Field of study is required"),
    NotEmpty("from", "From date is required"),
    NotEmpty("to", "To date is required")
  ]

  /** A body that passes the experience rules carries each required field, non-empty. */
  lemma ValidExperienceBodyHasFields(body: Body, isEmail: string -> bool)
    requires Violations(ExperienceRules, body, isEmail) == []
    ensures "title" in body && "company" in body && "from" in body && "to" in body
    ensures body["title"] != "" && body["company"] != "" && body["from"] != "" && body["to"] != ""
  {
    assert Passes(ExperienceRules[0], body, isEmail) && Passes(ExperienceRules[1], body, isEmail);
    assert Passes(ExperienceRules[2], body, isEmail) && Passes(ExperienceRules[3], body, isEmail);
  }

  /** A body that passes the education rules carries each required field, non-empty. */
  lemma ValidEducationBodyHasFields(body: Body, isEmail: string -> bool)
    requires Violations(EducationRules, body, isEmail) == []
    ensures "school" in body && "degree" in body && "fieldofstudy" in body && "from" in body && "to" in body
    ensures body["school"] != "" && body["degree"] != "" && body["fieldofstudy"] != ""
    ensures body["from"] != "" && body["to"] != ""
  {
    assert Passes(EducationRules[0], body, isEmail) && Passes(EducationRules[1], body, isEmail);
    assert Passes(EducationRules[2], body, isEmail) && Passes(EducationRules[3], body, isEmail);
    assert Passes(EducationRules[4], body, isEmail);
  }

  /** `profile.experience.unshift(newExp)` on the caller's profile: validate,
      then put the new entry first. A caller without a profile makes the
      handler read `experience` of `null`, which answers 500. `newId` is the
      id the store assigns to the entry. */
  function AddExperience(profiles: ProfileStore, caller: Id, body: Body, env: Env, newId: Id)
    : (r: Step<ProfileStore, Profile>)
    ensures r.reply.Err? ==> r.store == profiles
    ensures Violations(ExperienceRules, body, env.isEmail) != [] ==>
              r.reply == Err(Reject(Violations(ExperienceRules, body, env.isEmail)))
    ensures Violations(ExperienceRules, body, env.isEmail) == [] && IndexOfOwner(profiles, caller) == -1 ==>
              r.reply == Err(ServerError)
    ensures Violations(ExperienceRules, body, env.isEmail) == [] ==> (r.reply.Ok? <==> IndexOfOwner(profiles, caller) >= 0)
    ensures r.reply.Ok? ==>
              && "title" in body && "company" in body && "from" in body && "to" in body
              && var i := IndexOfOwner(profiles, caller);
                 && 0 <= i && |r.store| == |profiles| && r.store[i] == r.reply.value
                 && (forall j :: 0 <= j < |profiles| && j != i ==> r.store[j] == profiles[j])
                 && r.reply.value == profiles[i].(experience := r.reply.value.experience)
                 && |r.reply.value.experience| == |profiles[i].experience| + 1
                 && r.reply.value.experience[1..] == profiles[i].experience
                 && r.reply.value.experience[0] ==
                      Experience(newId, body["title"], body["company"], Optional(body, "state"),
                                 Optional(body, "city"), body["from"], body["to"],
                                 Optional(body, "current"), Optional(body, "description"))
  {
    var errors := Violations(ExperienceRules, body, env.isEmail);
    if errors != [] then Step(profiles, Err(Reject(errors)))
    else
      ValidExperienceBodyHasFields(body, env.isEmail);
      var i := IndexOfOwner(profiles, caller);
      if i < 0 then Step(profiles, Err(ServerError))
      else
        var entry := Experience(newId, body["title"], body["company"], Optional(body, "state"),
                                Optional(body, "city"), body["from"], body["to"],
                                Optional(body, "current"), Optional(body, "description"));
        var updated := profiles[i].(experience := [entry] + profiles[i].experience);
        Step(profiles[i := updated], Ok(updated))
  }

  /** `profile.education.unshift(newEdu)` on the caller's profile, with the
      same failures as adding experience. */
  function AddEducation(profiles: ProfileStore, caller: Id, body: Body, env: Env, newId: Id)
    : (r: Step<ProfileStore, Profile>)
    ensures r.reply.Err? ==> r.store == profiles
    ensures Violations(EducationRules, body, env.isEmail) != [] ==>
              r.reply == Err(Reject(Violations(EducationRules, body, env.isEmail)))
    ensures Violations(EducationRules, body, env.isEmail) == [] && IndexOfOwner(profiles, caller) == -1 ==>
              r.reply == Err(ServerError)
    ensures Violations(EducationRules, body, env.isEmail) == [] ==> (r.reply.Ok? <==> IndexOfOwner(profiles, caller) >= 0)
    ensures r.reply.Ok? ==>
              && "school" in body && "degree" in body && "fieldofstudy" in body && "from" in body && "to" in body
              && var i := IndexOfOwner(profiles, caller);
                 && 0 <= i && |r.store| == |profiles| && r.store[i] == r.reply.value
                 && (forall j :: 0 <= j < |profiles| && j != i ==> r.store[j] == profiles[j])
                 && r.reply.value == profiles[i].(education := r.reply.value.education)
                 && |r.reply.value.education| == |profiles[i].education| + 1
                 && r.reply.value.education[1..] == profiles[i].education
                 && r.reply.value.education[0] ==
                      Education(newId, body["school"], body["degree"], body["fieldofstudy"],
                                body["from"], body["to"], Optional(body, "current"),
                                Optional(body, "description"))
  {
    var errors := Violations(EducationRules, body, env.isEmail);
    if errors != [] then Step(profiles, Err(Reject(errors)))
    else
      ValidEducationBodyHasFields(body, env.isEmail);
      var i := IndexOfOwner(profiles, caller);
      if i < 0 then Step(profiles, Err(ServerError))
      else
        var entry := Education(newId, body["school"], body["degree"], body["fieldofstudy"],
                               body["from"], body["to"], Optional(body, "current"),
                               Optional(body, "description"));
        var updated := profiles[i].(education := [entry] + profiles[i].education);
        Step(profiles[i := updated], Ok(updated))
  }

  /** `list.splice(list.map(item => item.id).indexOf(id), 1)`, as written: the
      first entry with the id goes; when no entry has it, `indexOf` gives -1
      and the splice drops the LAST entry instead. */
  function RemoveEntry<T>(entries: seq<T>, idOf: T -> Id, id: Id): (r: seq<T>)
    ensures id in Map(entries, idOf) ==>
              var k := IndexOf(Map(entries, idOf), id);
              r == entries[..k] + entries[k + 1..]
    ensures id !in Map(entries, idOf) && |entries| > 0 ==> r == entries[..|entries| - 1]
    ensures id !in Map(entries, idOf) && |entries| == 0 ==> r == []
  {
    Splice1(entries, IndexOf(Map(entries, idOf), id))
  }

  /** Removal by id that leaves the list alone when no entry has the id. */
  function RemoveEntryIfPresent<T>(entries: seq<T>, idOf: T -> Id, id: Id): (r: seq<T>)
    ensures id !in Map(entries, idOf) ==> r == entries
    ensures id in Map(entries, idOf) ==>
              exists k :: 0 <= k < |entries| && idOf(entries[k]) == id
                          && (forall j :: 0 <= j < k ==> idOf(entries[j]) != id)
                          && r == entries[..k] + entries[k + 1..]
  {
    var ids := Map(entries, idOf);
    if id in ids then
      var k := IndexOf(ids, id);
      assert forall j :: 0 <= j < k ==> ids[..k][j] == ids[j];
      RemoveEntry(entries, idOf, id)
    else entries
  }

  /** An id no entry has still removes an entry: the last one. */
  lemma AbsentIdDropsLast()
    ensures var entries := [Education("e1", "S", "D", "F", "2010", "2014", None, None),
                            Education("e2", "T", "D", "F", "2014", "2016", None, None)];
            var idOf := (e: Education) => e.id;
            && RemoveEntry(entries, idOf, "missing") == entries[..1]
            && RemoveEntryIfPresent(entries, idOf, "missing") == entries
  {
    var entries := [Education("e1", "S", "D", "F", "2010", "2014", None, None),
                    Education("e2", "T", "D", "F", "2014", "2016", None, None)];
    var idOf := (e: Education) => e.id;
    assert Map(entries, idOf) == ["e1", "e2"];
  }

  /** `DELETE /api/profile/experience/:exp_id`, as written. A caller without
      a profile answers 500. */
  function RemoveExperience(profiles: ProfileStore, caller: Id, expId: Id): (r: Step<ProfileStore, Profile>)
    ensures r.reply.Err? <==> IndexOfOwner(profiles, caller) == -1
    ensures r.reply.Err? ==> r.store == profiles && r.reply.failure == ServerError
    ensures r.reply.Ok? ==>
              var i := IndexOfOwner(profiles, caller);
              && 0 <= i && r.store == profiles[i := r.reply.value]
              && r.reply.value == profiles[i].(experience := RemoveEntry(profiles[i].experience, (e: Experience) => e.id, expId))
  {
    var i := IndexOfOwner(profiles, caller);
    if i < 0 then Step(profiles, Err(ServerError))
    else
      var updated := profiles[i].(experience := RemoveEntry(profiles[i].experience, (e: Experience) => e.id, expId));
      Step(profiles[i := updated], Ok(updated))
  }

  /** `DELETE /api/profile/education/:edu_id`, as written. */
  function RemoveEducation(profiles: ProfileStore, caller: Id, eduId: Id): (r: Step<ProfileStore, Profile>)
    ensures r.reply.Err? <==> IndexOfOwner(profiles, caller) == -1
    ensures r.reply.Err? ==> r.store == profiles && r.reply.failure == ServerError
    ensures r.reply.Ok? ==>
              var i := IndexOfOwner(profiles, caller);
              && 0 <= i && r.store == profiles[i := r.reply.value]
              && r.reply.value == profiles[i].(education := RemoveEntry(profiles[i].education, (e: Education) => e.id, eduId))
  {
    var i := IndexOfOwner(profiles, caller);
    if i < 0 then Step(profiles, Err(ServerError))
    else
      var updated := profiles[i].(education := RemoveEntry(profiles[i].education, (e: Education) => e.id, eduId));
      Step(profiles[i := updated], Ok(updated))
  }

  /** Whether each document keeps its owner, position by position. */
  predicate SameOwners(a: ProfileStore, b: ProfileStore) {
    |a| == |b| && forall j :: 0 <= j < |a| ==> a[j].user == b[j].user
  }

  lemma {:induction false} SameOwnersKeepOnePerUser(a: ProfileStore, b: ProfileStore)
    requires OnePerUser(a) && SameOwners(a, b)
    ensures OnePerUser(b)
  {
  }

  /** Replacing one document by another with the same owner keeps owners in place. */
  lemma {:induction false} ReplaceKeepsOnePerUser(a: ProfileStore, b: ProfileStore, i: int)
    requires OnePerUser(a) && 0 <= i < |a| && |b| == |a| && b[i].user == a[i].user
    requires forall j :: 0 <= j < |a| && j != i ==> b[j] == a[j]
    ensures OnePerUser(b)
  {
    assert SameOwners(a, b);
    SameOwnersKeepOnePerUser(a, b);
  }

  /** Editing the experience or education lists never changes whose profile
      is whose, so one profile per user still holds afterwards. */
  lemma {:induction false} AddExperienceKeepsOnePerUser(profiles: ProfileStore, caller: Id, body: Body, env: Env,
                                                        newId: Id)
    requires OnePerUser(profiles)
    ensures OnePerUser(AddExperience(profiles, caller, body, env, newId).store)
  {
    var a := AddExperience(profiles, caller, body, env, newId);
    if a.reply.Ok? {
      ReplaceKeepsOnePerUser(profiles, a.store, IndexOfOwner(profiles, caller));
    }
  }

  lemma {:induction false} AddEducationKeepsOnePerUser(profiles: ProfileStore, caller: Id, body: Body, env: Env,
                                                       newId: Id)
    requires OnePerUser(profiles)
    ensures OnePerUser(AddEducation(profiles, caller, body, env, newId).store)
  {
    var b := AddEducation(profiles, caller, body, env, newId);
    if b.reply.Ok? {
      ReplaceKeepsOnePerUser(profiles, b.store, IndexOfOwner(profiles, caller));
    }
  }

  lemma {:induction false} RemoveEntryKeepsOnePerUser(profiles: ProfileStore, caller: Id, entryId: Id)
    requires OnePerUser(profiles)
    ensures OnePerUser(RemoveExperience(profiles, caller, entryId).store)
    ensures OnePerUser(RemoveEducation(profiles, caller, entryId).store)
  {
    var i := IndexOfOwner(profiles, caller);
    var c := RemoveExperience(profiles, caller, entryId);
    if c.reply.Ok? {
      ReplaceKeepsOnePerUser(profiles, c.store, i);
    }
    var d := RemoveEducation(profiles, caller, entryId);
    if d.reply.Ok? {
      ReplaceKeepsOnePerUser(profiles, d.store, i);
    }
  }

  /** Read after write: the saved profile is what
      `GET /api/profile/user/:user_id` returns for the caller. */
  lemma {:induction false} SaveThenGetByUser(profiles: ProfileStore, caller: Id, body: Body, env: Env)
    requires OnePerUser(profiles) && env.isObjectId(caller)
    ensures var r := SaveProfile(profiles, caller, body, env);
            r.reply.Ok? ==> GetByUser(r.store, caller, env) == Ok(r.reply.value)
  {
    SaveProfileKeepsOnePerUser(profiles, caller, body, env);
  }
}
