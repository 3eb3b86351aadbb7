/** JSON values, the recursive merge, and the carrying forward of display-transform settings. */
module Json {
  import opened Wrappers

  datatype Json =
    | Null
    | Bool(value: bool)
    | Number(number: int)
    | Str(text: string)
    | Arr(items: seq<Json>)
    | Obj(fields: map<string, Json>)

  // --------------------------------------------------------------- merging

  /** Objects merge key by key and recursively; everything else is replaced. */
  function Merge(target: Json, patch: Json): Json
    decreases patch
  {
    if target.Obj? && patch.Obj? then
      Obj(map k | k in target.fields.Keys + patch.fields.Keys :: MergeAt(target, patch, k))
    else patch
  }

  function MergeAt(target: Json, patch: Json, k: string): Json
    requires target.Obj? && patch.Obj? && (k in target.fields || k in patch.fields)
    decreases patch, 0
  {
    if k !in patch.fields then target.fields[k]
    else if k in target.fields then Merge(target.fields[k], patch.fields[k])
    else patch.fields[k]
  }

  method MergeJsonObject(target: Json, patch: Json) returns (r: Json)
    ensures r == Merge(target, patch)
    decreases patch
  {
    if !target.Obj? || !patch.Obj? {
      return patch;
    }
    var fields := MergeItems(target, patch);
    r := Obj(fields);
    MergedAll(target, patch);
  }

  /** The loop over the items of the patch, in any order. */
  method MergeItems(target: Json, patch: Json) returns (fields: map<string, Json>)
    requires target.Obj? && patch.Obj?
    ensures fields == MergedSoFar(target, patch, patch.fields.Keys)
    decreases patch, 1
  {
    fields := target.fields;
    var done: set<string> := {};
    MergedNone(target, patch);
    while done < patch.fields.Keys
      invariant done <= patch.fields.Keys
      invariant fields == MergedSoFar(target, patch, done)
      decreases patch.fields.Keys - done
    {
      var key :| key in patch.fields && key !in done;
      MergedOneMore(target, patch, done, key);
      var value := MergeItem(target, patch, fields, key);
      fields := fields[key := value];
      done := done + {key};
    }
  }

  method MergeItem(ghost target: Json, patch: Json, fields: map<string, Json>, key: string) returns (value: Json)
    requires target.Obj? && patch.Obj? && key in patch.fields
    requires (key in fields <==> key in target.fields) && (key in fields ==> fields[key] == target.fields[key])
    ensures value == MergeAt(target, patch, key)
    decreases patch, 0
  {
    value := patch.fields[key];
    if key in fields && fields[key].Obj? && value.Obj? {
      value := MergeJsonObject(fields[key], value);
    }
  }

  lemma MergedNone(target: Json, patch: Json)
    requires target.Obj? && patch.Obj?
    ensures MergedSoFar(target, patch, {}) == target.fields
  {
  }

  lemma MergedAll(target: Json, patch: Json)
    requires target.Obj? && patch.Obj?
    ensures Obj(MergedSoFar(target, patch, patch.fields.Keys)) == Merge(target, patch)
  {
    assert MergedSoFar(target, patch, patch.fields.Keys) == Merge(target, patch).fields;
  }

  /** The target after the given keys of the patch were merged into it. */
  ghost function MergedSoFar(target: Json, patch: Json, done: set<string>): map<string, Json>
    requires target.Obj? && patch.Obj? && done <= patch.fields.Keys
  {
    map k | k in target.fields.Keys + done :: if k in done then MergeAt(target, patch, k) else target.fields[k]
  }

  lemma MergedOneMore(target: Json, patch: Json, done: set<string>, key: string)
    requires target.Obj? && patch.Obj? && done <= patch.fields.Keys && key in patch.fields && key !in done
    ensures MergedSoFar(target, patch, done + {key}) == MergedSoFar(target, patch, done)[key := MergeAt(target, patch, key)]
    ensures key in MergedSoFar(target, patch, done) <==> key in target.fields
    ensures key in target.fields ==> MergedSoFar(target, patch, done)[key] == target.fields[key]
  {
  }

  // What a merge holds, path by path.

  /** The value that a path of keys leads to. */
  function Lookup(v: Json, path: seq<string>): Option<Json>
    decreases |path|
  {
    if path == [] then Some(v)
    else if v.Obj? && path[0] in v.fields then Lookup(v.fields[path[0]], path[1..])
    else None
  }

  /** The patch has nothing at the path or above it. */
  predicate Silent(patch: Json, path: seq<string>)
    decreases |path|
  {
    path != [] && patch.Obj? && (path[0] !in patch.fields || Silent(patch.fields[path[0]], path[1..]))
  }

  /** Unless both are objects the patch replaces the target. */
  lemma MergeReplaces(target: Json, patch: Json)
    ensures !target.Obj? || !patch.Obj? ==> Merge(target, patch) == patch
  {
  }

  /** A value of the patch that is no object is at the same path in the merge. */
  lemma {:induction false} PatchWins(target: Json, patch: Json, path: seq<string>)
    requires Lookup(patch, path).Some? && !Lookup(patch, path).value.Obj?
    ensures Lookup(Merge(target, patch), path) == Lookup(patch, path)
    decreases |path|
  {
    if path != [] && target.Obj? {
      var k := path[0];
      assert Merge(target, patch).fields[k] == MergeAt(target, patch, k);
      if k in target.fields {
        PatchWins(target.fields[k], patch.fields[k], path[1..]);
      }
    }
  }

  /** Where the patch says nothing the merge has what the target has. */
  lemma {:induction false} TargetStays(target: Json, patch: Json, path: seq<string>)
    requires Silent(patch, path)
    ensures Lookup(Merge(target, patch), path) == Lookup(target, path)
    decreases |path|
  {
    var k := path[0];
    if target.Obj? {
      if k in target.fields || k in patch.fields {
        assert Merge(target, patch).fields[k] == MergeAt(target, patch, k);
      }
      if k in patch.fields {
        if k in target.fields {
          TargetStays(target.fields[k], patch.fields[k], path[1..]);
        } else {
          SilentHasNothing(patch.fields[k], path[1..]);
        }
      }
    } else {
      SilentHasNothing(patch, path);
    }
  }

  lemma {:induction false} SilentHasNothing(patch: Json, path: seq<string>)
    requires Silent(patch, path)
    ensures Lookup(patch, path) == None
    decreases |path|
  {
    if path[0] in patch.fields {
      SilentHasNothing(patch.fields[path[0]], path[1..]);
    }
  }

  /** Everywhere else the merge has a value exactly where the patch has one. */
  lemma {:induction false} PatchShapes(target: Json, patch: Json, path: seq<string>)
    requires !Silent(patch, path)
    ensures Lookup(Merge(target, patch), path).Some? <==> Lookup(patch, path).Some?
    ensures Lookup(patch, path).Some? ==>
              (Lookup(Merge(target, patch), path).value.Obj? <==> Lookup(patch, path).value.Obj?)
    decreases |path|
  {
    if path != [] && target.Obj? && patch.Obj? {
      var k := path[0];
      assert Merge(target, patch).fields[k] == MergeAt(target, patch, k);
      if k in target.fields {
        PatchShapes(target.fields[k], patch.fields[k], path[1..]);
      }
    }
  }

  /** Merging the same patch again changes nothing. */
  lemma {:induction false} MergeIdempotent(target: Json, patch: Json)
    ensures Merge(Merge(target, patch), patch) == Merge(target, patch)
    decreases patch
  {
    MergeSelf(patch);
    if target.Obj? && patch.Obj? {
      var once := Merge(target, patch);
      forall k | k in once.fields ensures MergeAt(once, patch, k) == once.fields[k] {
        assert once.fields[k] == MergeAt(target, patch, k);
        if k in patch.fields && k in target.fields {
          MergeIdempotent(target.fields[k], patch.fields[k]);
        } else if k in patch.fields {
          MergeSelf(patch.fields[k]);
        }
      }
      assert Merge(once, patch).fields == once.fields;
    }
  }

  lemma {:induction false} MergeSelf(patch: Json)
    ensures Merge(patch, patch) == patch
    decreases patch
  {
    if patch.Obj? {
      forall k | k in patch.fields ensures MergeAt(patch, patch, k) == patch.fields[k] {
        MergeSelf(patch.fields[k]);
      }
      assert Merge(patch, patch).fields == patch.fields;
    }
  }

  // -------------------------------------------- display-transform settings

  type Fields = map<string, Json>

  /** The object stored under a key, if there is one. */
  function ObjectAt(m: Fields, key: string): Option<Fields> {
    if key in m && m[key].Obj? then Some(m[key].fields) else None
  }

  /** The missing keys are filled in; a missing or replaced parameter object comes back. */
  function FillDrt(t: Fields, s: Fields): Fields {
    var m := s + t;
    if ObjectAt(s, "parameters").None? then m
    else if ObjectAt(m, "parameters").None? then m["parameters" := s["parameters"]]
    else m["parameters" := Obj(ObjectAt(s, "parameters").value + ObjectAt(m, "parameters").value)]
  }

  function FillOdt(t: Fields, s: Fields): Fields {
    if ObjectAt(s, "open_drt").None? then t
    else if ObjectAt(t, "open_drt").None? then t["open_drt" := s["open_drt"]]
    else t["open_drt" := Obj(FillDrt(ObjectAt(t, "open_drt").value, ObjectAt(s, "open_drt").value))]
  }

  function Preserve(target: Json, source: Json): Json {
    if !target.Obj? || !source.Obj? then target
    else if ObjectAt(target.fields, "odt").None? || ObjectAt(source.fields, "odt").None? then target
    else
      Obj(target.fields["odt" := Obj(FillOdt(ObjectAt(target.fields, "odt").value, ObjectAt(source.fields, "odt").value))])
  }

  /** The loop that copies the keys the target does not have. */
  method FillMissing(target: Fields, source: Fields) returns (r: Fields)
    ensures r == source + target
  {
    r := target;
    var done: set<string> := {};
    while done < source.Keys
      invariant done <= source.Keys
      invariant r == (map k | k in done :: source[k]) + target
      decreases source.Keys - done
    {
      var key :| key in source && key !in done;
      if key !in r {
        r := r[key := source[key]];
      }
      done := done + {key};
    }
  }

  method PreserveDrt(target: Fields, source: Fields) returns (r: Fields)
    ensures r == FillDrt(target, source)
  {
    r := FillMissing(target, source);
    if "parameters" in source && source["parameters"].Obj? {
      if "parameters" !in r || !r["parameters"].Obj? {
        r := r["parameters" := source["parameters"]];
      } else {
        var parameters := FillMissing(r["parameters"].fields, source["parameters"].fields);
        r := r["parameters" := Obj(parameters)];
      }
    }
  }

  method PreserveDRTParams(target: Json, source: Json) returns (r: Json)
    ensures r == Preserve(target, source)
  {
    r := target;
    if !target.Obj? || !source.Obj? {
      return;
    }
    if "odt" !in target.fields || !target.fields["odt"].Obj? {
      return;
    }
    if "odt" !in source.fields || !source.fields["odt"].Obj? {
      return;
    }
    var targetOdt, sourceOdt := target.fields["odt"].fields, source.fields["odt"].fields;
    if "open_drt" in sourceOdt && sourceOdt["open_drt"].Obj? {
      if "open_drt" !in targetOdt || !targetOdt["open_drt"].Obj? {
        targetOdt := targetOdt["open_drt" := sourceOdt["open_drt"]];
      } else {
        var drt := PreserveDrt(targetOdt["open_drt"].fields, sourceOdt["open_drt"].fields);
        targetOdt := targetOdt["open_drt" := Obj(drt)];
      }
      r := Obj(target.fields["odt" := Obj(targetOdt)]);
    } else {
      assert target.fields["odt" := Obj(targetOdt)] == target.fields;
    }
  }

  /** A value of an object at a key, or nothing. */
  function At(m: Fields, key: string): Option<Json> {
    if key in m then Some(m[key]) else None
  }

  predicate IsObject(v: Option<Json>) {
    v.Some? && v.value.Obj?
  }

  function Either(v: Option<Json>, w: Option<Json>): Option<Json> {
    if v.Some? then v else w
  }

  /** The settings r: those of t, else those of s, and so one level further for the parameters. */
  ghost predicate Carried(r: Fields, t: Fields, s: Fields) {
    var p, q := At(t, "parameters"), At(s, "parameters");
    && (forall k :: k != "parameters" ==> At(r, k) == Either(At(t, k), At(s, k)))
    && (!IsObject(q) ==> At(r, "parameters") == Either(p, q))
    && (IsObject(q) && !IsObject(p) ==> At(r, "parameters") == q)
    && (IsObject(q) && IsObject(p) ==>
          IsObject(At(r, "parameters"))
          && forall k :: At(r["parameters"].fields, k) == Either(At(p.value.fields, k), At(q.value.fields, k)))
  }

  lemma FillDrtCarries(t: Fields, s: Fields)
    ensures Carried(FillDrt(t, s), t, s)
  {
    if IsObject(At(s, "parameters")) && At(t, "parameters").None? {
      var q := s["parameters"].fields;
      assert q + q == q;
    }
  }

  lemma OneKey(v: Json, k: string)
    ensures Lookup(v, [k]) == if v.Obj? then At(v.fields, k) else None
  {
    assert [k][1..] == [];
  }

  lemma TwoKeys(v: Json, k: string, l: string)
    ensures Lookup(v, [k, l]) == if IsObject(Lookup(v, [k])) then At(Lookup(v, [k]).value.fields, l) else None
  {
    OneKey(v, k);
    assert [k, l][1..] == [l];
    if v.Obj? && k in v.fields {
      OneKey(v.fields[k], l);
    }
  }

  /** What the carrying forward leaves: the settings of the target, and those of the source that it lacks. */
  lemma PreservedSettings(t: Json, s: Json)
    ensures var r := Preserve(t, s);
            var drt, was := Lookup(t, ["odt", "open_drt"]), Lookup(s, ["odt", "open_drt"]);
            if !IsObject(Lookup(t, ["odt"])) || !IsObject(was) then r == t
            else
              && r.Obj? && (forall k :: k != "odt" ==> At(r.fields, k) == At(t.fields, k)) && IsObject(At(r.fields, "odt"))
              && var odt := r.fields["odt"].fields;
                 && (forall k :: k != "open_drt" ==> At(odt, k) == At(Lookup(t, ["odt"]).value.fields, k))
                 && IsObject(At(odt, "open_drt"))
                 && if !IsObject(drt) then At(odt, "open_drt") == was
                    else Carried(odt["open_drt"].fields, drt.value.fields, was.value.fields)
  {
    OneKey(t, "odt");
    OneKey(s, "odt");
    TwoKeys(t, "odt", "open_drt");
    TwoKeys(s, "odt", "open_drt");
    var drt, was := Lookup(t, ["odt", "open_drt"]), Lookup(s, ["odt", "open_drt"]);
    if IsObject(drt) && IsObject(was) {
      FillDrtCarries(drt.value.fields, was.value.fields);
    }
  }

  // Overwriting again.

  lemma FillDrtTwice(t: Fields, s: Fields)
    ensures FillDrt(t, FillDrt(t, s)) == FillDrt(t, s)
  {
    var once := FillDrt(t, s);
    var again := once + t;
    assert once.Keys == (s + t).Keys && again.Keys == once.Keys;
    forall k | k in once && k != "parameters" ensures again[k] == once[k] {
    }
    if ObjectAt(once, "parameters").Some? && ObjectAt(again, "parameters").Some? {
      assert ObjectAt(once, "parameters").value + ObjectAt(again, "parameters").value == ObjectAt(once, "parameters").value;
    }
  }

  lemma FillDrtSelf(t: Fields)
    ensures FillDrt(t, t) == t
  {
    assert t + t == t;
    if ObjectAt(t, "parameters").Some? {
      var p := ObjectAt(t, "parameters").value;
      assert p + p == p;
    }
  }

  lemma FillOdtTwice(t: Fields, s: Fields)
    ensures FillOdt(t, FillOdt(t, s)) == FillOdt(t, s)
  {
    if ObjectAt(s, "open_drt").Some? && ObjectAt(t, "open_drt").Some? {
      FillDrtTwice(ObjectAt(t, "open_drt").value, ObjectAt(s, "open_drt").value);
    } else if ObjectAt(t, "open_drt").Some? {
      FillDrtSelf(ObjectAt(t, "open_drt").value);
    }
  }

  lemma FillOdtSelf(t: Fields)
    ensures FillOdt(t, t) == t
  {
    if ObjectAt(t, "open_drt").Some? {
      FillDrtSelf(ObjectAt(t, "open_drt").value);
    }
  }

  /** Carrying forward what was carried forward changes nothing. */
  lemma PreserveTwice(t: Json, s: Json)
    ensures Preserve(t, Preserve(t, s)) == Preserve(t, s)
  {
    if t.Obj? && ObjectAt(t.fields, "odt").Some? {
      var odt := ObjectAt(t.fields, "odt").value;
      FillOdtSelf(odt);
      if s.Obj? && ObjectAt(s.fields, "odt").Some? {
        FillOdtTwice(odt, ObjectAt(s.fields, "odt").value);
      }
    }
  }

  lemma PreserveSelf(t: Json)
    ensures Preserve(t, t) == t
  {
    if t.Obj? && ObjectAt(t.fields, "odt").Some? {
      FillOdtSelf(ObjectAt(t.fields, "odt").value);
    }
  }

  // Merging again.

  /** The merge of two objects, as fields. */
  function MergeFields(c: Fields, p: Fields): (r: Fields)
    ensures Obj(r) == Merge(Obj(c), Obj(p))
  {
    Merge(Obj(c), Obj(p)).fields
  }

  lemma MergeFieldsAt(c: Fields, p: Fields)
    ensures MergeFields(c, p).Keys == c.Keys + p.Keys
    ensures forall k :: k in c && k !in p ==> MergeFields(c, p)[k] == c[k]
    ensures forall k :: k in c && k in p ==> MergeFields(c, p)[k] == Merge(c[k], p[k])
    ensures forall k :: k !in c && k in p ==> MergeFields(c, p)[k] == p[k]
  {
    forall k | k in c || k in p ensures MergeFields(c, p)[k] == MergeAt(Obj(c), Obj(p), k) {
      assert Merge(Obj(c), Obj(p)).fields[k] == MergeAt(Obj(c), Obj(p), k);
    }
  }

  /** Merging again after one key of the merge was changed. */
  lemma MergeUpdated(c: Fields, p: Fields, key: string, v: Json)
    requires key in c
    ensures var m := MergeFields(c, p);
            MergeFields(m[key := v], p) == m[key := if key in p then Merge(v, p[key]) else v]
  {
    var m := MergeFields(c, p);
    MergeFieldsAt(c, p);
    MergeFieldsAt(m[key := v], p);
    forall k | k in m && k != key ensures MergeFields(m[key := v], p)[k] == m[k] {
      if k in p {
        if k in c {
          MergeIdempotent(c[k], p[k]);
        } else {
          MergeSelf(p[k]);
        }
      }
    }
  }

  lemma MergeFieldsTwice(c: Fields, p: Fields)
    ensures MergeFields(MergeFields(c, p), p) == MergeFields(c, p)
  {
    MergeIdempotent(Obj(c), Obj(p));
  }

  function RefillDrt(c: Fields, p: Fields): Fields {
    FillDrt(MergeFields(c, p), c)
  }

  /** Merging into a settings object keeps its keys, so only a replaced parameter object is brought back. */
  lemma RefillDrtIs(c: Fields, p: Fields)
    ensures RefillDrt(c, p) == if ObjectAt(c, "parameters").Some? && ObjectAt(MergeFields(c, p), "parameters").None?
                               then MergeFields(c, p)["parameters" := c["parameters"]] else MergeFields(c, p)
  {
    MergeFieldsAt(c, p);
    var m := MergeFields(c, p);
    assert c + m == m;
    if ObjectAt(c, "parameters").Some? && ObjectAt(m, "parameters").Some? {
      var cp, mp := ObjectAt(c, "parameters").value, ObjectAt(m, "parameters").value;
      if "parameters" in p {
        MergeFieldsAt(cp, p["parameters"].fields);
      }
      assert cp + mp == mp;
    }
  }

  lemma RefillDrtTwice(c: Fields, p: Fields)
    ensures RefillDrt(RefillDrt(c, p), p) == RefillDrt(c, p)
  {
    var m, r := MergeFields(c, p), RefillDrt(c, p);
    RefillDrtIs(c, p);
    RefillDrtIs(r, p);
    MergeFieldsAt(c, p);
    if r == m {
      MergeFieldsTwice(c, p);
    } else {
      MergeUpdated(c, p, "parameters", c["parameters"]);
      assert MergeFields(r, p) == m;
    }
  }

  function RefillOdt(c: Fields, p: Fields): Fields {
    FillOdt(MergeFields(c, p), c)
  }

  lemma RefillOdtIs(c: Fields, p: Fields)
    ensures var m := MergeFields(c, p);
            RefillOdt(c, p) ==
              if ObjectAt(c, "open_drt").None? || (ObjectAt(m, "open_drt").Some? && ObjectAt(p, "open_drt").None?) then m
              else if ObjectAt(m, "open_drt").None? then m["open_drt" := c["open_drt"]]
              else m["open_drt" := Obj(RefillDrt(c["open_drt"].fields, p["open_drt"].fields))]
    ensures ObjectAt(MergeFields(c, p), "open_drt").Some? && "open_drt" in p ==> p["open_drt"].Obj?
  {
    MergeFieldsAt(c, p);
    if ObjectAt(c, "open_drt").Some? {
      if "open_drt" in p {
        if p["open_drt"].Obj? {
          assert ObjectAt(MergeFields(c, p), "open_drt") == Some(MergeFields(c["open_drt"].fields, p["open_drt"].fields));
        }
      } else {
        FillDrtSelf(c["open_drt"].fields);
      }
    }
  }

  lemma RefillOdtTwice(c: Fields, p: Fields)
    ensures RefillOdt(RefillOdt(c, p), p) == RefillOdt(c, p)
  {
    var m, r := MergeFields(c, p), RefillOdt(c, p);
    RefillOdtIs(c, p);
    MergeFieldsAt(c, p);
    if r == m {
      MergeFieldsTwice(c, p);
      FillOdtSelf(m);
    } else {
      MergeUpdated(c, p, "open_drt", r["open_drt"]);
      RefillOdtIs(r, p);
      if ObjectAt(m, "open_drt").Some? {
        RefillDrtTwice(c["open_drt"].fields, p["open_drt"].fields);
      }
    }
  }

  /** What a merging display-transform entry makes of the current parameters. */
  function Refill(c: Json, p: Json): Json {
    Preserve(Merge(c, p), c)
  }

  /** Merging and carrying forward again changes nothing. */
  lemma RefillTwice(c: Json, p: Json)
    ensures Refill(Refill(c, p), p) == Refill(c, p)
  {
    if !c.Obj? || !p.Obj? {
      MergeSelf(p);
      PreserveSelf(p);
    } else {
      var m := MergeFields(c.fields, p.fields);
      MergeFieldsAt(c.fields, p.fields);
      var co, mo := ObjectAt(c.fields, "odt"), ObjectAt(m, "odt");
      if co.Some? && mo.Some? {
        if "odt" in p.fields {
          RefillPatchedOdt(c.fields, p.fields);
        } else {
          RefillOtherKeys(c.fields, p.fields);
        }
      } else {
        MergeIdempotent(c, p);
        PreserveSelf(Obj(m));
      }
    }
  }

  /** The patch touches the display transform's object. */
  lemma RefillPatchedIs(c: Fields, p: Fields)
    requires ObjectAt(c, "odt").Some? && ObjectAt(p, "odt").Some?
    ensures Refill(Obj(c), Obj(p)) == Obj(MergeFields(c, p)["odt" := Obj(RefillOdt(c["odt"].fields, p["odt"].fields))])
  {
    MergeFieldsAt(c, p);
    assert MergeFields(c, p)["odt"] == Obj(MergeFields(c["odt"].fields, p["odt"].fields));
  }

  lemma RefillPatchedOdt(c: Fields, p: Fields)
    requires ObjectAt(c, "odt").Some? && ObjectAt(p, "odt").Some?
    ensures Refill(Refill(Obj(c), Obj(p)), Obj(p)) == Refill(Obj(c), Obj(p))
  {
    var co, po := c["odt"].fields, p["odt"].fields;
    var r := MergeFields(c, p)["odt" := Obj(RefillOdt(co, po))];
    RefillPatchedIs(c, p);
    RefillPatchedIs(r, p);
    MergeUpdated(c, p, "odt", Obj(RefillOdt(co, po)));
    MergeFieldsAt(r, p);
    RefillOdtTwice(co, po);
  }

  /** The patch leaves it alone, so it is carried forward as it was. */
  lemma RefillOtherKeys(c: Fields, p: Fields)
    requires ObjectAt(c, "odt").Some? && "odt" !in p
    ensures Refill(Refill(Obj(c), Obj(p)), Obj(p)) == Refill(Obj(c), Obj(p))
  {
    var m := MergeFields(c, p);
    MergeFieldsAt(c, p);
    FillOdtSelf(c["odt"].fields);
    assert Refill(Obj(c), Obj(p)) == Obj(m["odt" := c["odt"]]) == Obj(m);
    MergeIdempotent(Obj(c), Obj(p));
    PreserveSelf(Obj(m));
  }
}
