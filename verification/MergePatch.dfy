/**
JSON merge patches: `Apply` is section 2 of RFC 7396, `Diff` is the patch a client computes between
two objects. A merge patch cannot carry a null, so the two are inverse exactly where the new object
has no null the old one did not have.
*/
module MergePatch {

  datatype Json =
    | Null
    | Bool(flag: bool)
    | Num(number: int)
    | Str(text: string)
    | Arr(items: seq<Json>)
    | Obj(members: map<string, Json>)

  const EMPTY := Obj(map[])

  /** No member of the object, at any depth, is null. Items of an array may be. */
  predicate NullFree(j: Json) {
    j.Obj? ==> forall k | k in j.members :: j.members[k] != Null && NullFree(j.members[k])
  }

  /** What a server makes of a patch: a null removes, an object is merged, anything else replaces. */
  function Apply(target: Json, patch: Json): Json
    decreases patch
  {
    if !patch.Obj? then patch
    else
      var held := if target.Obj? then target.members else map[];
      Obj(map k | k in held.Keys + patch.members.Keys && (k in patch.members ==> patch.members[k] != Null) ::
            if k !in patch.members then held[k]
            else Apply(if k in held then held[k] else Null, patch.members[k]))
  }

  /** A member of either object goes into the patch when it was added, removed, or its value changed. */
  predicate Differs(a: Json, b: Json, k: string)
    requires a.Obj? && b.Obj?
    decreases b, 0
  {
    if k !in a.members || k !in b.members then k in a.members || k in b.members
    else if a.members[k].Obj? && b.members[k].Obj? then Diff(a.members[k], b.members[k]) != EMPTY
    else a.members[k] != b.members[k]
  }

  function Diff(a: Json, b: Json): Json
    requires a.Obj? && b.Obj?
    decreases b, 1
  {
    Obj(map k | k in a.members.Keys + b.members.Keys && Differs(a, b, k) ::
          if k !in b.members then Null
          else if k in a.members && a.members[k].Obj? && b.members[k].Obj? then Diff(a.members[k], b.members[k])
          else b.members[k])
  }

  /** Every null of the new object stands where the old one has the same null. */
  predicate NullsWereThere(a: Json, b: Json)
    requires a.Obj? && b.Obj?
    decreases b
  {
    forall k | k in b.members ::
      if k in a.members && a.members[k].Obj? && b.members[k].Obj? then NullsWereThere(a.members[k], b.members[k])
      else if k in a.members && a.members[k] == b.members[k] then true
      else b.members[k] != Null && NullFree(b.members[k])
  }

  lemma SameMembers(a: Json, b: Json)
    requires a.Obj? && b.Obj? && a.members.Keys == b.members.Keys
    requires forall k | k in a.members :: a.members[k] == b.members[k]
    ensures a == b
  {
    assert a.members == b.members;
  }

  /** An empty patch says nothing changed. */
  lemma {:induction false} DiffIsEmptyIffEqual(a: Json, b: Json)
    requires a.Obj? && b.Obj?
    ensures Diff(a, b) == EMPTY <==> a == b
    decreases b
  {
    forall k | k in a.members && k in b.members && a.members[k].Obj? && b.members[k].Obj?
      ensures Differs(a, b, k) <==> a.members[k] != b.members[k]
    {
      DiffIsEmptyIffEqual(a.members[k], b.members[k]);
    }
    if Diff(a, b) == EMPTY {
      assert forall k | k in a.members.Keys + b.members.Keys :: k !in Diff(a, b).members;
      SameMembers(a, b);
    } else {
      assert Diff(a, b).members != map[];
    }
  }

  /** A value that replaces something other than an object arrives as it was sent iff it has no null member. */
  lemma {:induction false} ValueArrivesIff(target: Json, value: Json)
    requires !target.Obj?
    ensures Apply(target, value) == value <==> NullFree(value)
    decreases value
  {
    if value.Obj? {
      var got := Apply(target, value);
      forall k | k in value.members
        ensures Apply(Null, value.members[k]) == value.members[k] <==> NullFree(value.members[k])
      {
        ValueArrivesIff(Null, value.members[k]);
      }
      if NullFree(value) {
        SameMembers(got, value);
      } else {
        var k :| k in value.members && (value.members[k] == Null || !NullFree(value.members[k]));
        assert k in got.members ==> got.members[k] != value.members[k];
      }
    }
  }

  /** One member: what the server holds for it after the patch is what the new object holds for it. */
  predicate MemberArrives(a: Json, b: Json, k: string)
    requires a.Obj? && b.Obj?
  {
    var got := Apply(a, Diff(a, b)).members;
    (k in got <==> k in b.members) && (k in got ==> got[k] == b.members[k])
  }

  lemma {:induction false} NothingToRestore(j: Json)
    requires j.Obj?
    ensures NullsWereThere(j, j)
    decreases j
  {
    forall k | k in j.members && j.members[k].Obj? ensures NullsWereThere(j.members[k], j.members[k]) {
      NothingToRestore(j.members[k]);
    }
  }

  lemma {:induction false} MemberArrivesIff(a: Json, b: Json, k: string)
    requires a.Obj? && b.Obj? && k in b.members
    requires
      k in a.members && a.members[k].Obj? && b.members[k].Obj? ==>
        (Apply(a.members[k], Diff(a.members[k], b.members[k])) == b.members[k]
         <==> NullsWereThere(a.members[k], b.members[k]))
    ensures MemberArrives(a, b, k) <==>
      (if k in a.members && a.members[k].Obj? && b.members[k].Obj? then NullsWereThere(a.members[k], b.members[k])
       else if k in a.members && a.members[k] == b.members[k] then true
       else b.members[k] != Null && NullFree(b.members[k]))
  {
    var y, p, got := b.members[k], Diff(a, b), Apply(a, Diff(a, b));
    if k in a.members && a.members[k].Obj? && y.Obj? {
      DiffIsEmptyIffEqual(a.members[k], y);
      assert Differs(a, b, k) <==> a.members[k] != y;
      if a.members[k] == y {
        NothingToRestore(y);
      } else {
        assert got.members[k] == Apply(a.members[k], Diff(a.members[k], y));
      }
    } else if k in a.members && a.members[k] == y {
      assert !Differs(a, b, k);
    } else {
      var x := if k in a.members then a.members[k] else Null;
      assert Differs(a, b, k) && p.members[k] == y;
      assert y != Null ==> k in got.members && got.members[k] == Apply(x, y);
      if !x.Obj? {
        ValueArrivesIff(x, y);
      }
    }
  }

  /** The patch between two objects takes the one to the other, iff no null is new. */
  lemma {:induction false} PatchRestoresIff(a: Json, b: Json)
    requires a.Obj? && b.Obj?
    ensures Apply(a, Diff(a, b)) == b <==> NullsWereThere(a, b)
    decreases b
  {
    var got := Apply(a, Diff(a, b));
    forall k | k in b.members
      ensures MemberArrives(a, b, k) <==>
        (if k in a.members && a.members[k].Obj? && b.members[k].Obj? then NullsWereThere(a.members[k], b.members[k])
         else if k in a.members && a.members[k] == b.members[k] then true
         else b.members[k] != Null && NullFree(b.members[k]))
    {
      if k in a.members && a.members[k].Obj? && b.members[k].Obj? {
        PatchRestoresIff(a.members[k], b.members[k]);
      }
      MemberArrivesIff(a, b, k);
    }
    forall k | k !in b.members ensures k !in got.members {
      assert k in a.members ==> Differs(a, b, k) && Diff(a, b).members[k] == Null;
    }
    if NullsWereThere(a, b) {
      forall k | k in b.members ensures k in got.members && got.members[k] == b.members[k] {
        assert MemberArrives(a, b, k);
      }
      SameMembers(got, b);
    }
  }

  lemma {:induction false} NullFreeArrives(a: Json, b: Json)
    requires a.Obj? && b.Obj? && NullFree(b)
    ensures Apply(a, Diff(a, b)) == b
    decreases b
  {
    NullFreeHasNoNewNull(a, b);
    PatchRestoresIff(a, b);
  }

  lemma {:induction false} NullFreeHasNoNewNull(a: Json, b: Json)
    requires a.Obj? && b.Obj? && NullFree(b)
    ensures NullsWereThere(a, b)
    decreases b
  {
    forall k | k in b.members && k in a.members && a.members[k].Obj? && b.members[k].Obj?
      ensures NullsWereThere(a.members[k], b.members[k])
    {
      NullFreeHasNoNewNull(a.members[k], b.members[k]);
    }
  }

  // ---- A patch that meets another object than the one it was taken from ----

  /** Sent whole over `held`, the value replaces it: no member of what is held is missing from the value. */
  predicate Absorbs(held: Json, value: Json)
    decreases value
  {
    held.Obj? && value.Obj? ==> forall k | k in held.members :: k in value.members && Absorbs(held.members[k], value.members[k])
  }

  lemma {:induction false} SentWholeIff(held: Json, value: Json)
    requires value != Null && NullFree(value)
    ensures Apply(held, value) == value <==> Absorbs(held, value)
    decreases value
  {
    if held.Obj? && value.Obj? {
      var got := Apply(held, value).members;
      forall k | k in value.members
        ensures k in got && (got[k] == value.members[k] <==> (k in held.members ==> Absorbs(held.members[k], value.members[k])))
      {
        if k in held.members {
          SentWholeIff(held.members[k], value.members[k]);
        } else {
          ValueArrivesIff(Null, value.members[k]);
        }
      }
      assert forall k :: k in got <==> k in held.members || k in value.members;
      if Absorbs(held, value) {
        SameMembers(Apply(held, value), value);
      }
    } else if value.Obj? {
      ValueArrivesIff(held, value);
    }
  }

  /** What a merge starts from where a member is an object in the patch. */
  function Under(held: Json, k: string): Json
    requires held.Obj?
  {
    if k in held.members && held.members[k].Obj? then held.members[k] else EMPTY
  }

  /** For one member, the live object agrees with the base wherever the patch says nothing. */
  predicate AgreesAt(live: Json, base: Json, next: Json, k: string)
    requires live.Obj? && base.Obj? && next.Obj?
    decreases next, 0
  {
    if k !in next.members then k in base.members || k !in live.members
    else if k in base.members && base.members[k] == next.members[k] then
      k in live.members && live.members[k] == next.members[k]
    else if k in base.members && base.members[k].Obj? && next.members[k].Obj? then
      Agrees(Under(live, k), base.members[k], next.members[k])
    else
      k in live.members ==> Absorbs(live.members[k], next.members[k])
  }

  predicate Agrees(live: Json, base: Json, next: Json)
    requires live.Obj? && base.Obj? && next.Obj?
    decreases next, 1
  {
    forall k | k in live.members.Keys + base.members.Keys + next.members.Keys :: AgreesAt(live, base, next, k)
  }

  /** What the live object holds for one member after the patch from `base` to `next`. */
  predicate LandsAt(live: Json, base: Json, next: Json, k: string)
    requires live.Obj? && base.Obj? && next.Obj?
  {
    var got := Apply(live, Diff(base, next)).members;
    (k in got <==> k in next.members) && (k in got ==> got[k] == next.members[k])
  }

  lemma ObjectUnder(held: Json, k: string, patch: Json)
    requires held.Obj? && patch.Obj?
    ensures Apply(if k in held.members then held.members[k] else Null, patch) == Apply(Under(held, k), patch)
  {
  }

  lemma LandsWhereAgreed(live: Json, base: Json, next: Json, k: string)
    requires live.Obj? && base.Obj? && next.Obj? && NullFree(next)
    requires
      k in base.members && k in next.members && base.members[k].Obj? && next.members[k].Obj? ==>
        (Apply(Under(live, k), Diff(base.members[k], next.members[k])) == next.members[k]
         <==> Agrees(Under(live, k), base.members[k], next.members[k]))
    ensures LandsAt(live, base, next, k) <==> AgreesAt(live, base, next, k)
  {
    var p, got := Diff(base, next), Apply(live, Diff(base, next));
    if k !in next.members {
      assert Differs(base, next, k) <==> k in base.members;
    } else if k in base.members && base.members[k].Obj? && next.members[k].Obj? {
      DiffIsEmptyIffEqual(base.members[k], next.members[k]);
      assert Differs(base, next, k) <==> base.members[k] != next.members[k];
      if base.members[k] != next.members[k] {
        ObjectUnder(live, k, Diff(base.members[k], next.members[k]));
        assert got.members[k] == Apply(Under(live, k), Diff(base.members[k], next.members[k]));
      }
    } else if k in base.members && base.members[k] == next.members[k] {
      assert !Differs(base, next, k);
    } else {
      assert Differs(base, next, k) && p.members[k] == next.members[k];
      var held := if k in live.members then live.members[k] else Null;
      assert got.members[k] == Apply(held, next.members[k]);
      SentWholeIff(held, next.members[k]);
    }
  }

  /**
  A patch taken from `base` makes `next` of a live object if and only if the live object agrees with the
  base wherever base and next agree, and holds nothing that a value sent whole would leave standing.
  */
  lemma {:induction false} StalePatchLandsIff(live: Json, base: Json, next: Json)
    requires live.Obj? && base.Obj? && next.Obj? && NullFree(next)
    ensures Apply(live, Diff(base, next)) == next <==> Agrees(live, base, next)
    decreases next
  {
    var got := Apply(live, Diff(base, next));
    forall k ensures LandsAt(live, base, next, k) <==> AgreesAt(live, base, next, k) {
      if k in base.members && k in next.members && base.members[k].Obj? && next.members[k].Obj? {
        StalePatchLandsIff(Under(live, k), base.members[k], next.members[k]);
      }
      LandsWhereAgreed(live, base, next, k);
    }
    if Agrees(live, base, next) {
      forall k ensures k in got.members <==> k in next.members {
        assert LandsAt(live, base, next, k);
      }
      assert got.members.Keys == next.members.Keys;
      forall k | k in got.members ensures got.members[k] == next.members[k] {
        assert LandsAt(live, base, next, k);
      }
      SameMembers(got, next);
    } else {
      var k :| k in live.members.Keys + base.members.Keys + next.members.Keys && !AgreesAt(live, base, next, k);
      assert !LandsAt(live, base, next, k);
    }
  }
}
