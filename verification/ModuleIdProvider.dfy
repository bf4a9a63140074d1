/** The numbers that stand for module names. */
module ModuleIdProviders {

  /** Each name has one number, and each number below next stands for one name. */
  predicate Inverse(ids: map<string, int>, names: seq<string>) {
    && (forall s :: s in ids ==> 0 <= ids[s] < |names| && names[ids[s]] == s)
    && (forall i :: 0 <= i < |names| ==> names[i] in ids && ids[names[i]] == i)
  }

  lemma DistinctNamesDistinctIds(ids: map<string, int>, names: seq<string>, s: string, t: string)
    requires Inverse(ids, names) && s in ids && t in ids
    ensures ids[s] == ids[t] <==> s == t
  {
    assert names[ids[s]] == s;
  }

  class ModuleIdProvider {
    var nextId: int
    var strModuleIdToIntModuleId: map<string, int>
    var intModuleIdToStrModuleId: seq<string>

    predicate Valid()
      reads this
    {
      nextId == |intModuleIdToStrModuleId| && Inverse(strModuleIdToIntModuleId, intModuleIdToStrModuleId)
    }

    constructor ()
      ensures Valid() && intModuleIdToStrModuleId == ["exports", "module", "require"]
    {
      nextId, strModuleIdToIntModuleId, intModuleIdToStrModuleId := 0, map[], [];
      new;
      var _ := GetModuleId("exports");
      var _ := GetModuleId("module");
      var _ := GetModuleId("require");
    }

    /** The number of a name never changes; a new name gets a new number. */
    method GetModuleId(strModuleId: string) returns (id: int)
      requires Valid()
      modifies this
      ensures Valid() && 0 <= id < nextId && intModuleIdToStrModuleId[id] == strModuleId
      ensures intModuleIdToStrModuleId
           == old(intModuleIdToStrModuleId) + if strModuleId in old(intModuleIdToStrModuleId) then [] else [strModuleId]
    {
      if strModuleId in strModuleIdToIntModuleId {
        id := strModuleIdToIntModuleId[strModuleId];
        return;
      }
      assert strModuleId !in intModuleIdToStrModuleId;
      id := nextId;
      nextId := nextId + 1;
      strModuleIdToIntModuleId := strModuleIdToIntModuleId[strModuleId := id];
      intModuleIdToStrModuleId := intModuleIdToStrModuleId + [strModuleId];
    }

    method GetStrModuleId(moduleId: int) returns (s: string)
      requires Valid() && 0 <= moduleId < nextId
      ensures s in strModuleIdToIntModuleId && strModuleIdToIntModuleId[s] == moduleId
    {
      s := intModuleIdToStrModuleId[moduleId];
    }
  }
}
