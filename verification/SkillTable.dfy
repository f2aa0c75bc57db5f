/** The skill repository: a keyed store, ids handed out by the highest id so far, and lookup by name. */
module SkillTable {
  import opened Basics
  import opened Wrappers

  datatype SkillData = SkillData(id: int, name: string)

  // ----- names

  predicate SameName(a: string, b: string) {
    |a| == |b| && StartsWith(a, b)
  }

  /** Some recorded name starts with the given one. */
  predicate Taken(names: seq<string>, name: string) {
    exists i :: 0 <= i < |names| && StartsWith(names[i], name)
  }

  // ----- the table as the list of its names, the i-th of which has id i + 1

  ghost function Filed(names: seq<string>): map<int, SkillData> {
    map id | 1 <= id <= |names| :: Entry(names, id)
  }

  function Entry(names: seq<string>, id: int): SkillData
    requires 1 <= id <= |names|
  {
    SkillData(id, names[id - 1])
  }

  /** No later name is a prefix of an earlier one, ignoring case. */
  ghost predicate NoLaterPrefix(names: seq<string>) {
    forall i, j :: 0 <= i < j < |names| ==> !StartsWith(names[i], names[j])
  }

  // ----- one run of AddSkill calls

  function Next(names: seq<string>, name: string): seq<string> {
    if Taken(names, name) then names else names + [name]
  }

  function Answer(names: seq<string>, name: string): int {
    if Taken(names, name) then -1 else |names| + 1
  }

  function NamesAfter(calls: seq<string>): seq<string> {
    if calls == [] then [] else Next(NamesAfter(calls[..|calls| - 1]), calls[|calls| - 1])
  }

  function Answers(calls: seq<string>): seq<int> {
    if calls == [] then []
    else Answers(calls[..|calls| - 1]) + [Answer(NamesAfter(calls[..|calls| - 1]), calls[|calls| - 1])]
  }

  /** The answers that are ids. */
  function Successes(answers: seq<int>): seq<int> {
    if answers == [] then []
    else Successes(answers[..|answers| - 1]) + if answers[|answers| - 1] > -1 then [answers[|answers| - 1]] else []
  }

  /** Over any run from the empty table the ids are 1, 2, 3, ..., and no later name is a prefix of an earlier. */
  lemma {:induction false} RunOfAdds(calls: seq<string>)
    ensures var ids := Successes(Answers(calls));
      && |ids| == |NamesAfter(calls)| && (forall k :: 0 <= k < |ids| ==> ids[k] == k + 1)
      && NoLaterPrefix(NamesAfter(calls))
    decreases |calls|
  {
    if calls != [] {
      var before := calls[..|calls| - 1];
      RunOfAdds(before);
      assert Answers(calls)[..|calls| - 1] == Answers(before) by {
        AnswersLength(before);
      }
      AnswersLength(calls);
    }
  }

  lemma {:induction false} AnswersLength(calls: seq<string>)
    ensures |Answers(calls)| == |calls|
    decreases |calls|
  {
    if calls != [] {
      AnswersLength(calls[..|calls| - 1]);
    }
  }

  /** What a lookup may answer: the entry of that very name if there is one, else any entry that starts with it. */
  ghost predicate Found(names: seq<string>, name: string, r: int) {
    if exists i :: 0 <= i < |names| && SameName(names[i], name)
    then 1 <= r <= |names| && SameName(names[r - 1], name)
    else if Taken(names, name) then 1 <= r <= |names| && StartsWith(names[r - 1], name)
    else r == -1
  }

  lemma SameNameIsPrefix(a: string, b: string, name: string)
    requires SameName(a, name) && SameName(b, name)
    ensures StartsWith(a, b) && StartsWith(b, a)
  {
  }

  /** A name once added is looked up under its own id, then and after any further calls. */
  lemma LookupKeepsId(calls: seq<string>, more: seq<string>, k: nat, r: int)
    requires k < |NamesAfter(calls)| && Found(NamesAfter(calls + more), NamesAfter(calls)[k], r)
    ensures r == k + 1
  {
    NamesGrow(calls, more);
    RunOfAdds(calls + more);
    var names := NamesAfter(calls + more);
    assert SameName(names[k], names[k]);
    SameNameIsPrefix(names[k], names[r - 1], names[k]);
  }

  lemma {:induction false} NamesGrow(calls: seq<string>, more: seq<string>)
    ensures NamesAfter(calls) <= NamesAfter(calls + more)
    decreases |more|
  {
    if more == [] {
      assert calls + more == calls;
    } else {
      NamesGrow(calls, more[..|more| - 1]);
      assert (calls + more)[..|calls + more| - 1] == calls + more[..|more| - 1];
    }
  }

  // ----- the keyed store

  class Repository {
    var entities: map<int, SkillData>

    constructor ()
      ensures entities == map[]
    {
      entities := map[];
    }

    method Add(key: int, entity: SkillData) returns (added: bool)
      modifies this
      ensures added == (key !in old(entities))
      ensures entities == if added then old(entities)[key := entity] else old(entities)
    {
      if key in entities {
        return false;
      }
      entities := entities[key := entity];
      return true;
    }

    method Delete(key: int) returns (deleted: bool)
      modifies this
      ensures deleted == (key in old(entities)) && entities == old(entities) - {key}
    {
      deleted := key in entities;
      entities := entities - {key};
    }

    method Get(key: int) returns (r: Option<SkillData>)
      ensures r == if key in entities then Some(entities[key]) else None
    {
      r := if key in entities then Some(entities[key]) else None;
    }

    method Clear()
      modifies this
      ensures entities == map[]
    {
      entities := map[];
    }
  }

  // ----- the manager

  class RepositoryManager {
    const skills: Repository
    ghost var names: seq<string>

    ghost predicate Valid()
      reads this, skills
    {
      skills.entities == Filed(names) && NoLaterPrefix(names)
    }

    constructor ()
      ensures Valid() && names == [] && fresh(skills)
    {
      skills := new Repository();
      names := [];
    }

    /** The highest id so far plus one; ids are visited in an arbitrary order. */
    method GenerateNewId() returns (id: int)
      requires Valid()
      ensures id == |names| + 1
    {
      var left, best := skills.entities.Keys, 0;
      while left != {}
        invariant left <= skills.entities.Keys
        invariant best == 0 || best in skills.entities
        invariant forall key :: key in skills.entities && key !in left ==> key <= best
        decreases |left|
      {
        var key :| key in left;
        left := left - {key};
        if skills.entities[key].id > best {
          best := skills.entities[key].id;
        }
      }
      assert |names| > 0 ==> |names| in skills.entities;
      return best + 1;
    }

    /** GetEntity by id scans the values, in no particular order; it agrees with the lookup by key. */
    method GetEntityById(id: int) returns (r: Option<SkillData>)
      requires Valid()
      ensures r == if id in skills.entities then Some(skills.entities[id]) else None
    {
      if exists key | key in skills.entities.Keys :: skills.entities[key].id == id {
        var key :| key in skills.entities.Keys && skills.entities[key].id == id;
        return Some(skills.entities[key]);
      }
      return None;
    }

    method GetEntityByName(name: string) returns (r: Option<SkillData>)
      requires Valid()
      ensures r.Some? <==> exists i :: 0 <= i < |names| && SameName(names[i], name)
      ensures r.Some? ==> 1 <= r.value.id <= |names| && SameName(names[r.value.id - 1], name)
    {
      if exists key | key in skills.entities.Keys :: SameName(skills.entities[key].name, name) {
        var key :| key in skills.entities.Keys && SameName(skills.entities[key].name, name);
        return Some(skills.entities[key]);
      }
      forall i | 0 <= i < |names|
        ensures !SameName(names[i], name)
      {
        assert i + 1 in skills.entities.Keys;
      }
      return None;
    }

    method LookupSkill(name: string) returns (r: int)
      requires Valid()
      ensures Found(names, name, r)
    {
      var skill := GetEntityByName(name);
      if skill.Some? {
        return skill.value.id;
      }
      if exists key | key in skills.entities.Keys :: StartsWith(skills.entities[key].name, name) {
        var key :| key in skills.entities.Keys && StartsWith(skills.entities[key].name, name);
        assert StartsWith(names[key - 1], name);
        return skills.entities[key].id;
      }
      forall i | 0 <= i < |names|
        ensures !StartsWith(names[i], name)
      {
        assert i + 1 in skills.entities.Keys;
      }
      return -1;
    }

    method AddSkill(name: string) returns (r: int)
      requires Valid()
      modifies this, skills
      ensures Valid() && r == Answer(old(names), name) && names == Next(old(names), name)
    {
      var found := LookupSkill(name);
      if found > -1 {
        TakenWhenFound(names, name, found);
        return -1;
      }
      var newId := GenerateNewId();
      var added := skills.Add(newId, SkillData(newId, name));
      names := names + [name];
      assert skills.entities == Filed(names);
      return newId;
    }

    /** A whole run of calls on a fresh table. */
    method AddAll(calls: seq<string>) returns (answers: seq<int>)
      requires Valid() && names == []
      modifies this, skills
      ensures Valid() && names == NamesAfter(calls) && answers == Answers(calls)
    {
      answers := [];
      for i := 0 to |calls|
        invariant Valid() && names == NamesAfter(calls[..i]) && answers == Answers(calls[..i])
      {
        assert calls[..i + 1][..i] == calls[..i];
        var r := AddSkill(calls[i]);
        answers := answers + [r];
      }
      assert calls[..|calls|] == calls;
    }
  }

  lemma TakenWhenFound(names: seq<string>, name: string, r: int)
    requires Found(names, name, r)
    ensures r > -1 <==> Taken(names, name)
  {
    if i :| 0 <= i < |names| && SameName(names[i], name) {
      assert StartsWith(names[i], name);
    }
  }

  // ----- case

  /** Names are the same exactly when they differ at most in the case of their letters. */
  lemma SameNameIs(a: string, b: string)
    ensures SameName(a, b) <==> CaseVariant(a, b)
  {
    hide StartsWith, CaseVariant;
    StartsWithIs(a, b);
    if |a| == |b| {
      assert a[..|b|] == a;
    } else {
      VariantLength(a, b);
    }
  }

  lemma VariantLength(a: string, b: string)
    ensures CaseVariant(a, b) ==> |a| == |b|
  {
  }

  /** Whatever a lookup may answer for a name it may answer for every case variant of it. */
  lemma FoundInAnyCase(names: seq<string>, a: string, b: string, r: int)
    requires CaseVariant(a, b)
    ensures Found(names, a, r) <==> Found(names, b, r)
  {
    hide StartsWith;
    forall i | 0 <= i < |names|
      ensures StartsWith(names[i], a) <==> StartsWith(names[i], b)
      ensures SameName(names[i], a) <==> SameName(names[i], b)
    {
      VariantsStart(a, b, names[i]);
    }
  }

  /** A name is taken exactly when the beginning of a recorded name differs from it in case at most. */
  lemma TakenInAnyCase(names: seq<string>, name: string)
    ensures Answer(names, name) == -1 <==>
      exists i :: 0 <= i < |names| && |name| <= |names[i]| && CaseVariant(names[i][..|name|], name)
  {
    hide StartsWith, CaseVariant;
    forall i | 0 <= i < |names|
      ensures StartsWith(names[i], name) <==> |name| <= |names[i]| && CaseVariant(names[i][..|name|], name)
    {
      StartsWithIs(names[i], name);
    }
  }

  /** Where "Fireball" is recorded, "fireball" is found and "fire" is refused. */
  lemma Fireball(r: int)
    ensures Found(["Fireball"], "fireball", r) <==> r == 1
    ensures Answer(["Fireball"], "fire") == -1
  {
    SameNameIs("Fireball", "fireball");
    assert SameName(["Fireball"][0], "fireball");
    TakenInAnyCase(["Fireball"], "fire");
    assert CaseVariant(["Fireball"][0][..|"fire"|], "fire");
  }
}
