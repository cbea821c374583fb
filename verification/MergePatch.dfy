/** JSON Merge Patch on the metadata store, against section 2 of RFC 7396. */
module MergePatch {
  datatype Json =
    | Null
    | Bool(b: bool)
    | Number(text: string)
    | Str(s: string)
    | Arr(items: seq<Json>)
    | Obj(members: map<string, Json>)

  function Members(v: Json): map<string, Json> {
    if v.Obj? then v.members else map[]
  }

  function Member(ms: map<string, Json>, k: string): Json {
    if k in ms then ms[k] else Null
  }

  /** A null in the patch removes a member, anything else is merged into the member, other members stay. */
  function Merge(target: Json, patch: Json): Json
    decreases patch
  {
    if !patch.Obj? then patch
    else
      var t, p := Members(target), patch.members;
      Obj(map k | k in t.Keys + p.Keys && (k in p ==> p[k] != Null)
            :: if k in p then Merge(Member(t, k), p[k]) else t[k])
  }

  /** The members after those in `done` have been patched. */
  ghost function Patched(t: map<string, Json>, p: map<string, Json>, done: set<string>): map<string, Json> {
    map k | k in t.Keys + (p.Keys * done) && (k in p && k in done ==> p[k] != Null)
      :: if k in p && k in done then Merge(Member(t, k), p[k]) else t[k]
  }

  /** What becomes of one member. */
  lemma MergedMember(target: Json, patch: Json, k: string)
    requires patch.Obj?
    ensures
      var t, p, r := Members(target), patch.members, Merge(target, patch);
      && r.Obj? && (k in r.members <==> if k in p then p[k] != Null else k in t)
      && (k in r.members ==> r.members[k] == if k in p then Merge(Member(t, k), p[k]) else t[k])
  {
  }

  lemma PatchedMember(t: map<string, Json>, p: map<string, Json>, done: set<string>, k: string)
    ensures
      var r := Patched(t, p, done);
      && (k in r <==> if k in p && k in done then p[k] != Null else k in t)
      && (k in r ==> r[k] == if k in p && k in done then Merge(Member(t, k), p[k]) else t[k])
  {
    hide Merge;
  }

  lemma PatchedOne(t: map<string, Json>, p: map<string, Json>, done: set<string>, k: string)
    requires k in p && k !in done
    ensures
      var doc := Patched(t, p, done);
      && Member(doc, k) == Member(t, k)
      && Patched(t, p, done + {k}) == if p[k] == Null then doc - {k} else doc[k := Merge(Member(t, k), p[k])]
  {
    hide Merge, Patched;
    var doc, next := Patched(t, p, done), Patched(t, p, done + {k});
    forall x
      ensures x in next <==> if x == k then p[k] != Null else x in doc
      ensures x in next ==> next[x] == if x == k then Merge(Member(t, k), p[k]) else doc[x]
    {
      PatchedMember(t, p, done, x);
      PatchedMember(t, p, done + {k}, x);
    }
    PatchedMember(t, p, done, k);
  }

  lemma PatchedNone(t: map<string, Json>, p: map<string, Json>)
    ensures Patched(t, p, {}) == t
  {
    hide Merge;
  }

  lemma PatchedAll(target: Json, patch: Json)
    requires patch.Obj?
    ensures Obj(Patched(Members(target), patch.members, patch.members.Keys)) == Merge(target, patch)
  {
    hide Merge, Patched, Members;
    var a, b := Patched(Members(target), patch.members, patch.members.Keys), Merge(target, patch);
    MergedMember(target, patch, "");
    forall k
      ensures k in a <==> k in b.members
      ensures k in a ==> a[k] == b.members[k]
    {
      PatchedMember(Members(target), patch.members, patch.members.Keys, k);
      MergedMember(target, patch, k);
    }
    assert a == b.members;
  }

  /** The in-place recursion, visiting the members of the patch in any order. */
  method JsonPatch(target: Json, patch: Json) returns (r: Json)
    ensures r == Merge(target, patch)
    decreases patch
  {
    if patch.Obj? {
      hide Patched, Merge, Member;
      var keys := patch.members.Keys;
      var doc := if target.Obj? then target.members else map[];
      ghost var start := doc;
      var left := keys;
      PatchedNone(start, patch.members);
      assert keys - left == {};
      while left != {}
        invariant left <= keys && doc == Patched(start, patch.members, keys - left)
        decreases |left|
      {
        var key :| key in left;
        PatchedOne(start, patch.members, keys - left, key);
        if patch.members[key] == Null {
          doc := doc - {key};
        } else {
          var merged := JsonPatch(Member(doc, key), patch.members[key]);
          doc := doc[key := merged];
        }
        assert keys - (left - {key}) == keys - left + {key};
        left := left - {key};
      }
      r := Obj(doc);
      assert keys - left == keys;
      PatchedAll(target, patch);
    } else {
      r := patch;
    }
  }

  // ---------- What a patch achieves ----------

  /** No member of an object, at any depth below objects, is null. */
  ghost predicate NullFree(v: Json)
    decreases v
  {
    v.Obj? ==> forall k :: k in v.members ==> v.members[k] != Null && NullFree(v.members[k])
  }

  /** Applying the same patch again changes nothing. */
  lemma {:induction false} MergeIdempotent(target: Json, patch: Json)
    ensures Merge(Merge(target, patch), patch) == Merge(target, patch)
    decreases patch
  {
    if patch.Obj? {
      hide Merge;
      var p, once, twice := patch.members, Merge(target, patch), Merge(Merge(target, patch), patch);
      MergedMember(target, patch, "");
      MergedMember(once, patch, "");
      forall k
        ensures k in twice.members <==> k in once.members
        ensures k in twice.members ==> twice.members[k] == once.members[k]
      {
        MergedMember(target, patch, k);
        MergedMember(once, patch, k);
        if k in p && p[k] != Null {
          MergeIdempotent(Member(Members(target), k), p[k]);
        }
      }
      assert twice.members == once.members;
    }
  }

  /** A document without null members is its own patch for any target that is no object. */
  lemma {:induction false} MergeIntoNothing(target: Json, v: Json)
    requires NullFree(v) && !target.Obj?
    ensures Merge(target, v) == v
    decreases v
  {
    if v.Obj? {
      forall k | k in v.members
        ensures Merge(Null, v.members[k]) == v.members[k]
      {
        MergeIntoNothing(Null, v.members[k]);
      }
      assert Merge(target, v).members == v.members;
    }
  }

  /** A patch that turns one document into another. */
  function Diff(origin: Json, goal: Json): Json
    decreases goal
  {
    if !origin.Obj? || !goal.Obj? then goal
    else
      var a, b := origin.members, goal.members;
      Obj(map k | k in a.Keys + b.Keys :: if k !in b then Null else if k !in a then b[k] else Diff(a[k], b[k]))
  }

  /** Every document without null members can be reached from every other by one patch. */
  lemma {:induction false} DiffReaches(origin: Json, goal: Json)
    requires NullFree(goal)
    ensures Merge(origin, Diff(origin, goal)) == goal
    ensures goal != Null ==> Diff(origin, goal) != Null
    decreases goal
  {
    if !origin.Obj? && goal.Obj? {
      MergeIntoNothing(origin, goal);
    } else if origin.Obj? && goal.Obj? {
      var a, b, p := origin.members, goal.members, Diff(origin, goal).members;
      forall k | k in b
        ensures p[k] != Null && Merge(Member(a, k), p[k]) == b[k]
      {
        if k in a {
          DiffReaches(a[k], b[k]);
        } else {
          MergeIntoNothing(Null, b[k]);
        }
      }
      assert Merge(origin, Diff(origin, goal)).members == b;
    }
  }
}
