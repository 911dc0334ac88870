/**
 JSON Merge Patch (section 2 of RFC 7396), and the pruning that turns a patch into one that only
 fills in what a body leaves open.
 */
module MergePatch {
  import opened Json

  /** The result of applying `patch` to `target`: section 2 of RFC 7396. */
  function Merged(target: Json, patch: Json): Json
    decreases patch
  {
    if !patch.Object? then patch
    else
      var held := if target.Object? then target.fields else map[];
      Object(map k | k in held.Keys + patch.fields.Keys && !(k in patch.fields && patch.fields[k].Null?) ::
               if k in patch.fields then Merged(if k in held then held[k] else Null, patch.fields[k]) else held[k])
  }

  /** The part of `patch` on paths that `body` does not have; `None` when nothing is left. */
  function Pruned(patch: Json, body: Json): Option<Json>
    decreases patch
  {
    if !patch.Object? || !body.Object? then Some(patch)
    else
      var out := map k | k in patch.fields && PrunedField(patch, body, k).Some? :: PrunedField(patch, body, k).value;
      if out == map[] then None else Some(Object(out))
  }

  function PrunedField(patch: Json, body: Json, k: string): Option<Json>
    requires patch.Object? && body.Object? && k in patch.fields
    decreases patch, 0
  {
    var value := patch.fields[k];
    if k !in body.fields then Some(value)
    else if value.Object? && body.fields[k].Object? then Pruned(value, body.fields[k])
    else None
  }

  // ---- The two loops ----

  method Merge(target: Json, patch: Json) returns (result: Json)
    ensures result == Merged(target, patch)
    decreases patch
  {
    if !patch.Object? {
      return patch;
    }
    ghost var held := if target.Object? then target.fields else map[];
    var fields := if target.Object? then target.fields else map[];
    var keys := patch.fields.Keys;
    MergedFieldsEnds(target, patch);
    while keys != {}
      invariant keys <= patch.fields.Keys
      invariant fields == MergedFields(held, patch, keys)
      decreases |keys|
    {
      var key :| key in keys;
      var value := patch.fields[key];
      var next := fields - {key};
      if !value.Null? {
        var slot := if key in fields then fields[key] else Null;
        var merged := Merge(slot, value);
        next := fields[key := merged];
      }
      MergedFieldsStep(held, patch, keys, key, fields, next);
      keys, fields := keys - {key}, next;
    }
    return Object(fields);
  }

  /** The fields while the patch keys in `pending` are still to be applied. */
  ghost function MergedFields(held: map<string, Json>, patch: Json, pending: set<string>): map<string, Json>
    requires patch.Object?
  {
    var done := patch.fields.Keys - pending;
    map k | k in held.Keys + done && !(k in done && patch.fields[k].Null?) ::
      if k in done then Merged(if k in held then held[k] else Null, patch.fields[k]) else held[k]
  }

  lemma MergedFieldsEnds(target: Json, patch: Json)
    requires patch.Object?
    ensures var held := if target.Object? then target.fields else map[];
            && MergedFields(held, patch, patch.fields.Keys) == held
            && Object(MergedFields(held, patch, {})) == Merged(target, patch)
  {
    var held := if target.Object? then target.fields else map[];
    assert MergedFields(held, patch, {}) == Merged(target, patch).fields;
  }

  lemma MergedFieldsStep(
    held: map<string, Json>, patch: Json, pending: set<string>, key: string,
    before: map<string, Json>, after: map<string, Json>)
    requires patch.Object? && pending <= patch.fields.Keys && key in pending
    requires before == MergedFields(held, patch, pending)
    requires after == if patch.fields[key].Null? then before - {key}
                      else before[key := Merged(if key in before then before[key] else Null, patch.fields[key])]
    ensures after == MergedFields(held, patch, pending - {key})
  {
  }

  method PruneExisting(patch: Json, body: Json) returns (result: Option<Json>)
    ensures result == Pruned(patch, body)
    decreases patch
  {
    if !patch.Object? || !body.Object? {
      return Some(patch);
    }
    var out: map<string, Json> := map[];
    var keys := patch.fields.Keys;
    while keys != {}
      invariant keys <= patch.fields.Keys
      invariant out.Keys <= patch.fields.Keys - keys
      invariant forall k | k in patch.fields.Keys - keys ::
                  (k in out <==> PrunedField(patch, body, k).Some?)
                  && (k in out ==> out[k] == PrunedField(patch, body, k).value)
      decreases |keys|
    {
      var key :| key in keys;
      keys := keys - {key};
      var value := patch.fields[key];
      if key !in body.fields {
        out := out[key := value];
      } else if value.Object? && body.fields[key].Object? {
        var nested := PruneExisting(value, body.fields[key]);
        if nested.Some? {
          out := out[key := nested.value];
        }
      }
    }
    assert out == map k | k in patch.fields && PrunedField(patch, body, k).Some? :: PrunedField(patch, body, k).value;
    return if out == map[] then None else Some(Object(out));
  }

  // ---- Merge laws ----

  /** Field `k` after a merge into `fields`. */
  lemma MergedField(target: Json, patch: Json, k: string)
    requires patch.Object?
    ensures var held := if target.Object? then target.fields else map[];
            var fields := Merged(target, patch).fields;
            && (k in patch.fields && patch.fields[k].Null? ==> k !in fields)
            && (k in patch.fields && !patch.fields[k].Null? ==>
                  k in fields && fields[k] == Merged(if k in held then held[k] else Null, patch.fields[k]))
            && (k !in patch.fields ==> (k in fields <==> k in held) && (k in held ==> fields[k] == held[k]))
  {
  }

  lemma {:induction false} MergeIsIdempotent(target: Json, patch: Json)
    ensures Merged(Merged(target, patch), patch) == Merged(target, patch)
    decreases patch
  {
    if patch.Object? {
      var once, twice := Merged(target, patch), Merged(Merged(target, patch), patch);
      var held := if target.Object? then target.fields else map[];
      forall k ensures k in once.fields <==> k in twice.fields
               ensures k in once.fields ==> once.fields[k] == twice.fields[k]
      {
        if k in patch.fields && !patch.fields[k].Null? {
          MergeIsIdempotent(if k in held then held[k] else Null, patch.fields[k]);
        }
      }
      assert once.fields == twice.fields;
    }
  }

  /**
   What a merge puts at a path, for every path: the patch's value where it has one, nothing where it
   says null or blocks the way, and whatever the target had where the patch says nothing.
   */
  lemma {:induction false} MergedAtPath(target: Json, patch: Json, path: Path)
    requires patch.Object?
    ensures var found, wanted := Lookup(Merged(target, patch), path), Lookup(patch, path);
            if !Settles(patch, path) then found == Lookup(target, path)
            else if wanted.None? || wanted.value.Null? then found.None?
            else found.Some? && if wanted.value.Object? then found.value.Object? else found == wanted
    decreases path
  {
    if path != [] {
      var k, rest := path[0], path[1..];
      var held := if target.Object? then target.fields else map[];
      MergedField(target, patch, k);
      var merged := Merged(target, patch);
      assert Lookup(merged, path) == if k in merged.fields then Lookup(merged.fields[k], rest) else None;
      assert Lookup(target, path) == if k in held then Lookup(held[k], rest) else None;
      assert Settles(patch, path) <==> k in patch.fields && Settles(patch.fields[k], rest);
      assert !(k in patch.fields && patch.fields[k].Object?) ==>
          (Settles(patch, path) <==> k in patch.fields);
      if k in patch.fields && patch.fields[k].Object? {
        assert !Settles(patch.fields[k], rest) ==> Lookup(Null, rest).None?;
        MergedAtPath(if k in held then held[k] else Null, patch.fields[k], rest);
      }
    }
  }

  // ---- Filling in ----

  /** Non-forcing application: merge only what pruning leaves of the patch. */
  function Filled(body: Json, patch: Json): Json {
    match Pruned(patch, body)
    case None => body
    case Some(left) => Merged(body, left)
  }

  /** What pruning leaves, field by field. */
  lemma PrunedFields(patch: Json, body: Json)
    requires patch.Object? && body.Object?
    ensures match Pruned(patch, body)
            case None => forall k | k in patch.fields :: PrunedField(patch, body, k).None?
            case Some(left) =>
              && left.Object? && left.fields != map[]
              && (forall k :: k in left.fields <==> k in patch.fields && PrunedField(patch, body, k).Some?)
              && (forall k | k in left.fields :: left.fields[k] == PrunedField(patch, body, k).value)
  {
    var out := map k | k in patch.fields && PrunedField(patch, body, k).Some? :: PrunedField(patch, body, k).value;
    if out == map[] {
      forall k | k in patch.fields ensures PrunedField(patch, body, k).None? {
        assert k !in out;
      }
    }
  }

  /** Field by field: the body's own value stays, nested objects are filled, the rest is added. */
  lemma FilledField(body: Json, patch: Json, k: string)
    requires body.Object? && patch.Object?
    ensures Filled(body, patch).Object?
    ensures var r := Filled(body, patch).fields;
            && (k in body.fields ==> k in r)
            && (k in r ==> k in body.fields || (k in patch.fields && !patch.fields[k].Null?))
            && (k in body.fields && k in patch.fields && body.fields[k].Object? && patch.fields[k].Object? ==>
                  r[k] == Filled(body.fields[k], patch.fields[k]))
            && (k in body.fields && !(k in patch.fields && body.fields[k].Object? && patch.fields[k].Object?) ==>
                  r[k] == body.fields[k])
            && (k !in body.fields && k in patch.fields && !patch.fields[k].Null? ==>
                  k in r && r[k] == Merged(Null, patch.fields[k]))
  {
    PrunedFields(patch, body);
    if Pruned(patch, body).Some? {
      MergedField(body, Pruned(patch, body).value, k);
      if k in patch.fields && k in body.fields && PrunedField(patch, body, k).Some? {
        PrunedFields(patch.fields[k], body.fields[k]);
      }
    }
  }

  /** Every path of the body survives: leaves keep their value, objects stay objects. */
  lemma {:induction false} FillKeepsBody(body: Json, patch: Json, path: Path)
    requires body.Object? && patch.Object?
    requires Lookup(body, path).Some?
    ensures var was, now := Lookup(body, path), Lookup(Filled(body, patch), path);
            now.Some? && (if was.value.Object? then now.value.Object? else now == was)
    decreases path
  {
    FilledField(body, patch, "");
    if path == [] {
    } else {
      var k := path[0];
      FilledField(body, patch, k);
      if k in patch.fields && body.fields[k].Object? && patch.fields[k].Object? {
        FillKeepsBody(body.fields[k], patch.fields[k], path[1..]);
      }
    }
  }

  /** Every non-null value of the patch on a path the body leaves open appears there. */
  lemma {:induction false} FillAddsMissing(body: Json, patch: Json, path: Path)
    requires body.Object? && patch.Object?
    requires Lookup(patch, path).Some? && !Lookup(patch, path).value.Null? && !Settles(body, path)
    ensures var wanted, now := Lookup(patch, path), Lookup(Filled(body, patch), path);
            now.Some? && (if wanted.value.Object? then now.value.Object? else now == wanted)
    decreases path
  {
    var k := path[0];
    FilledField(body, patch, k);
    if k in body.fields {
      FillAddsMissing(body.fields[k], patch.fields[k], path[1..]);
    } else {
      NonNullOnTheWay(patch.fields[k], path[1..]);
      MergeIntoNothing(patch.fields[k], path[1..]);
    }
  }

  lemma NonNullOnTheWay(j: Json, path: Path)
    requires Lookup(j, path).Some? && !Lookup(j, path).value.Null?
    ensures !j.Null?
  {
  }

  /** Nothing else appears: what is new came from the patch, on a path the body left open. */
  lemma {:induction false} FillAddsNothingElse(body: Json, patch: Json, path: Path)
    requires body.Object? && patch.Object?
    requires Lookup(Filled(body, patch), path).Some? && Lookup(body, path).None?
    ensures var wanted, now := Lookup(patch, path), Lookup(Filled(body, patch), path);
            && wanted.Some? && !wanted.value.Null? && !Settles(body, path)
            && (if wanted.value.Object? then now.value.Object? else now == wanted)
    decreases path
  {
    var k := path[0];
    FilledField(body, patch, k);
    if k in body.fields {
      FillAddsNothingElse(body.fields[k], patch.fields[k], path[1..]);
    } else {
      MergeIntoNothingAddsNothing(patch.fields[k], path[1..]);
    }
  }

  /** Merging into nothing keeps exactly the non-null values of the patch. */
  lemma {:induction false} MergeIntoNothing(patch: Json, path: Path)
    requires Lookup(patch, path).Some? && !Lookup(patch, path).value.Null?
    ensures var wanted, now := Lookup(patch, path), Lookup(Merged(Null, patch), path);
            now.Some? && (if wanted.value.Object? then now.value.Object? else now == wanted)
    decreases path
  {
    if path == [] {
    } else {
      NonNullOnTheWay(patch.fields[path[0]], path[1..]);
      MergedField(Null, patch, path[0]);
      MergeIntoNothing(patch.fields[path[0]], path[1..]);
    }
  }

  lemma {:induction false} MergeIntoNothingAddsNothing(patch: Json, path: Path)
    requires !patch.Null?
    requires Lookup(Merged(Null, patch), path).Some?
    ensures var wanted, now := Lookup(patch, path), Lookup(Merged(Null, patch), path);
            && wanted.Some? && !wanted.value.Null?
            && (if wanted.value.Object? then now.value.Object? else now == wanted)
    decreases path
  {
    if path == [] {
    } else if patch.Object? {
      MergedField(Null, patch, path[0]);
      MergeIntoNothingAddsNothing(patch.fields[path[0]], path[1..]);
    }
  }

  /** Pruning leaves nothing exactly when the body already decides every path of the patch. */
  lemma PrunedAwayMeansComplete(patch: Json, body: Json)
    requires patch.Object? && body.Object?
    ensures Pruned(patch, body).None? <==> forall path | Lookup(patch, path).Some? :: Settles(body, path)
  {
    if Pruned(patch, body).None? {
      forall path | Lookup(patch, path).Some? ensures Settles(body, path) {
        PrunedAwaySettles(patch, body, path);
      }
    } else {
      var path := OpenPath(patch, body);
    }
  }

  lemma {:induction false} PrunedAwaySettles(patch: Json, body: Json, path: Path)
    requires patch.Object? && body.Object?
    requires Pruned(patch, body).None? && Lookup(patch, path).Some?
    ensures Settles(body, path)
    decreases path
  {
    PrunedFields(patch, body);
    if path != [] {
      var k := path[0];
      assert PrunedField(patch, body, k).None?;
      if patch.fields[k].Object? && body.fields[k].Object? {
        PrunedAwaySettles(patch.fields[k], body.fields[k], path[1..]);
      } else {
        assert Lookup(patch.fields[k], path[1..]).Some?;
      }
    }
  }

  /** Whatever pruning leaves sits on a path the body leaves open. */
  lemma {:induction false} OpenPath(patch: Json, body: Json) returns (path: Path)
    requires patch.Object? && body.Object? && Pruned(patch, body).Some?
    ensures Lookup(patch, path).Some? && !Settles(body, path)
    decreases patch
  {
    PrunedFields(patch, body);
    var k :| k in Pruned(patch, body).value.fields;
    var rest: Path := [];
    if k in body.fields {
      rest := OpenPath(patch.fields[k], body.fields[k]);
    }
    path := [k] + rest;
    assert path[1..] == rest;
  }

  /** Filling in a second time changes nothing. */
  lemma {:induction false} FillIsIdempotent(body: Json, patch: Json)
    requires body.Object? && patch.Object?
    ensures Filled(Filled(body, patch), patch) == Filled(body, patch)
    decreases patch
  {
    FilledField(body, patch, "");
    var once := Filled(body, patch);
    FilledField(once, patch, "");
    var twice := Filled(once, patch);
    forall k ensures k in once.fields <==> k in twice.fields
             ensures k in once.fields ==> once.fields[k] == twice.fields[k]
    {
      FilledField(body, patch, k);
      FilledField(once, patch, k);
      if k in patch.fields && patch.fields[k].Object? {
        if k in body.fields && body.fields[k].Object? {
          FillIsIdempotent(body.fields[k], patch.fields[k]);
        } else if k !in body.fields {
          FillAfterMerge(Null, patch.fields[k]);
        }
      }
    }
    assert once.fields == twice.fields;
  }

  /** A merge leaves nothing of the same patch to fill in. */
  lemma {:induction false} FillAfterMerge(target: Json, patch: Json)
    requires patch.Object?
    ensures Filled(Merged(target, patch), patch) == Merged(target, patch)
    decreases patch
  {
    var merged := Merged(target, patch);
    FilledField(merged, patch, "");
    var again := Filled(merged, patch);
    var held := if target.Object? then target.fields else map[];
    forall k ensures k in merged.fields <==> k in again.fields
             ensures k in merged.fields ==> merged.fields[k] == again.fields[k]
    {
      MergedField(target, patch, k);
      FilledField(merged, patch, k);
      if k in patch.fields && patch.fields[k].Object? {
        FillAfterMerge(if k in held then held[k] else Null, patch.fields[k]);
      }
    }
    assert merged.fields == again.fields;
  }

  /** Forcing after filling in is forcing. */
  lemma {:induction false} ForceOverridesFill(body: Json, patch: Json)
    requires body.Object? && patch.Object?
    ensures Merged(Filled(body, patch), patch) == Merged(body, patch)
    decreases patch
  {
    FilledField(body, patch, "");
    var a, b := Merged(Filled(body, patch), patch), Merged(body, patch);
    forall k ensures k in a.fields <==> k in b.fields
             ensures k in a.fields ==> a.fields[k] == b.fields[k]
    {
      FilledField(body, patch, k);
      MergedField(body, patch, k);
      MergedField(Filled(body, patch), patch, k);
      if k in patch.fields && !patch.fields[k].Null? {
        if k !in body.fields {
          MergeIsIdempotent(Null, patch.fields[k]);
        } else if patch.fields[k].Object? && body.fields[k].Object? {
          ForceOverridesFill(body.fields[k], patch.fields[k]);
        }
      }
    }
    assert a.fields == b.fields;
  }
}
