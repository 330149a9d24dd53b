/** Deep merge of machine-config YAML (`deep_merge_yaml` in `crates/pertisk-config/src/lib.rs`).
    Mappings are compared as the YAML library compares them, without regard to entry order. */
module ConfigMerge {

  datatype Value =
    | Scalar(text: string)
    | Sequence(items: seq<Value>)
    | Mapping(entries: map<string, Value>)

  function Merge(base: Value, patch: Value): Value
    decreases patch
  {
    if base.Mapping? && patch.Mapping? then
      Mapping(map k | k in base.entries.Keys + patch.entries.Keys ::
        if k !in patch.entries then base.entries[k]
        else if k !in base.entries then patch.entries[k]
        else Merge(base.entries[k], patch.entries[k]))
    else patch
  }

  /** One turn of the loop: the entry under `k` is merged in place, or inserted. */
  method MergeEntry(entries: map<string, Value>, k: string, v: Value) returns (r: map<string, Value>)
    ensures r == entries[k := if k in entries then Merge(entries[k], v) else v]
    decreases v, 1
  {
    if k in entries {
      var merged := DeepMerge(entries[k], v);
      r := entries[k := merged];
    } else {
      r := entries[k := v];
    }
  }

  /** The loop over the patch, in whatever order its entries come, updating the base in place. */
  method DeepMerge(base: Value, patch: Value) returns (slot: Value)
    ensures slot == Merge(base, patch)
    decreases patch, 0
  {
    if base.Mapping? && patch.Mapping? {
      hide Merge, MergedSoFar;
      var entries := base.entries;
      var todo := patch.entries.Keys;
      MergeStarts(base.entries, patch.entries);
      while todo != {}
        invariant todo <= patch.entries.Keys
        invariant MergedSoFar(base.entries, patch.entries, todo, entries)
        decreases |todo|
      {
        var k :| k in todo;
        MergeAdvances(base.entries, patch.entries, todo, entries, k);
        entries := MergeEntry(entries, k, patch.entries[k]);
        todo := todo - {k};
      }
      slot := Mapping(entries);
      MergeEnds(base.entries, patch.entries, entries);
    } else {
      slot := patch;
    }
  }

  /** The loop invariant: the entries of the patch outside `todo` are merged in. */
  ghost predicate MergedSoFar(base: map<string, Value>, patch: map<string, Value>, todo: set<string>,
                              entries: map<string, Value>)
  {
    && entries.Keys == base.Keys + (patch.Keys - todo)
    && forall k :: k in entries ==>
         entries[k] == if k !in patch || k in todo then base[k]
                       else if k in base then Merge(base[k], patch[k])
                       else patch[k]
  }

  lemma MergeStarts(base: map<string, Value>, patch: map<string, Value>)
    ensures MergedSoFar(base, patch, patch.Keys, base)
  {
  }

  lemma MergeAdvances(base: map<string, Value>, patch: map<string, Value>, todo: set<string>,
                      entries: map<string, Value>, k: string)
    requires MergedSoFar(base, patch, todo, entries) && todo <= patch.Keys && k in todo
    ensures var v := if k in entries then Merge(entries[k], patch[k]) else patch[k];
            MergedSoFar(base, patch, todo - {k}, entries[k := v])
  {
  }

  lemma MergeEnds(base: map<string, Value>, patch: map<string, Value>, entries: map<string, Value>)
    requires MergedSoFar(base, patch, {}, entries)
    ensures Mapping(entries) == Merge(Mapping(base), Mapping(patch))
  {
    assert entries == Merge(Mapping(base), Mapping(patch)).entries;
  }

  // ----- what a merge holds

  /** The value at a path of mapping keys is `x`, and `x` is not a mapping. */
  predicate IsLeaf(v: Value, path: seq<string>, x: Value) {
    if path == [] then v == x && !v.Mapping?
    else v.Mapping? && path[0] in v.entries && IsLeaf(v.entries[path[0]], path[1..], x)
  }

  /** The patch says something at the path itself, or puts a non-mapping above it. */
  predicate Decides(patch: Value, path: seq<string>) {
    !patch.Mapping? || path == [] || (path[0] in patch.entries && Decides(patch.entries[path[0]], path[1..]))
  }

  /** Every leaf of the patch wins, every base leaf the patch does not decide survives, and
      there is nothing else. */
  lemma {:induction false} LeavesOfMerge(base: Value, patch: Value, path: seq<string>, x: Value)
    ensures IsLeaf(Merge(base, patch), path, x)
       <==> IsLeaf(patch, path, x) || (IsLeaf(base, path, x) && !Decides(patch, path))
    decreases path
  {
    if path != [] && base.Mapping? && patch.Mapping? && path[0] in base.entries && path[0] in patch.entries {
      LeavesOfMerge(base.entries[path[0]], patch.entries[path[0]], path[1..], x);
    }
  }

  /** Applying the same patch again changes nothing. */
  lemma {:induction false} MergeIsIdempotent(base: Value, patch: Value)
    ensures Merge(Merge(base, patch), patch) == Merge(base, patch)
    decreases patch
  {
    MergeWithItself(patch);
    if base.Mapping? && patch.Mapping? {
      forall k | k in base.entries && k in patch.entries
        ensures Merge(Merge(base.entries[k], patch.entries[k]), patch.entries[k])
             == Merge(base.entries[k], patch.entries[k])
      {
        MergeIsIdempotent(base.entries[k], patch.entries[k]);
      }
      forall k | k in patch.entries ensures Merge(patch.entries[k], patch.entries[k]) == patch.entries[k] {
        MergeWithItself(patch.entries[k]);
      }
      assert Merge(Merge(base, patch), patch).entries == Merge(base, patch).entries;
    }
  }

  lemma {:induction false} MergeWithItself(v: Value)
    ensures Merge(v, v) == v
    decreases v
  {
    if v.Mapping? {
      forall k | k in v.entries ensures Merge(v.entries[k], v.entries[k]) == v.entries[k] {
        MergeWithItself(v.entries[k]);
      }
      assert Merge(v, v).entries == v.entries;
    }
  }

  // ----- composing patches

  /** `c` has a say everywhere `a` has one. */
  predicate Covers(c: Value, a: Value) {
    a.Mapping? && c.Mapping? ==>
      forall k :: k in a.entries ==> k in c.entries && Covers(c.entries[k], a.entries[k])
  }

  lemma {:induction false} CoveredBaseVanishes(a: Value, c: Value)
    ensures Merge(a, c) == c <==> Covers(c, a)
    decreases c
  {
    if a.Mapping? && c.Mapping? {
      forall k | k in a.entries && k in c.entries
        ensures Merge(a.entries[k], c.entries[k]) == c.entries[k] <==> Covers(c.entries[k], a.entries[k])
      {
        CoveredBaseVanishes(a.entries[k], c.entries[k]);
      }
      var m := Merge(a, c).entries;
      if Covers(c, a) {
        assert m == c.entries;
      } else {
        var k :| k in a.entries && !(k in c.entries && Covers(c.entries[k], a.entries[k]));
        assert k in m && (k !in c.entries || m[k] != c.entries[k]);
      }
    }
  }

  /** Where the middle patch puts a non-mapping between two mappings, the last one covers the
      first. */
  predicate Composes(a: Value, b: Value, c: Value) {
    a.Mapping? && c.Mapping? ==>
      if b.Mapping? then
        forall k :: k in a.entries && k in b.entries && k in c.entries ==>
          Composes(a.entries[k], b.entries[k], c.entries[k])
      else Covers(c, a)
  }

  /** Two partial applies are one apply of the merged patch, exactly under this condition. */
  lemma {:induction false} MergeIsAssociative(a: Value, b: Value, c: Value)
    ensures Merge(Merge(a, b), c) == Merge(a, Merge(b, c)) <==> Composes(a, b, c)
    decreases c
  {
    if a.Mapping? && c.Mapping? {
      if b.Mapping? {
        var l, r := Merge(Merge(a, b), c).entries, Merge(a, Merge(b, c)).entries;
        assert l.Keys == r.Keys;
        forall k | k in l
          ensures l[k] == r[k] <==>
            (k in a.entries && k in b.entries && k in c.entries ==> Composes(a.entries[k], b.entries[k], c.entries[k]))
        {
          if k in a.entries && k in b.entries && k in c.entries {
            MergeIsAssociative(a.entries[k], b.entries[k], c.entries[k]);
          }
        }
        if Composes(a, b, c) {
          assert l == r;
        } else {
          var k :| k in a.entries && k in b.entries && k in c.entries
                   && !Composes(a.entries[k], b.entries[k], c.entries[k]);
          assert l[k] != r[k];
        }
      } else {
        CoveredBaseVanishes(a, c);
      }
    }
  }

  /** The middle patch has no non-mapping at a path where the other two hold mappings. */
  predicate NoClash(a: Value, b: Value, c: Value) {
    a.Mapping? && c.Mapping? ==>
      b.Mapping? && forall k :: k in a.entries && k in b.entries && k in c.entries ==>
        NoClash(a.entries[k], b.entries[k], c.entries[k])
  }

  lemma {:induction false} NoClashComposes(a: Value, b: Value, c: Value)
    requires NoClash(a, b, c)
    ensures Composes(a, b, c)
    decreases c
  {
    if a.Mapping? && c.Mapping? {
      forall k | k in a.entries && k in b.entries && k in c.entries
        ensures Composes(a.entries[k], b.entries[k], c.entries[k])
      {
        NoClashComposes(a.entries[k], b.entries[k], c.entries[k]);
      }
    }
  }

  /** Without the premise it fails: a scalar in between hides what the first mapping held. */
  lemma ClashLosesTheBase()
    ensures var a := Mapping(map["theme" := Scalar("nord")]);
            var b, c := Scalar("off"), Mapping(map["border" := Scalar("line")]);
            Merge(Merge(a, b), c) != Merge(a, Merge(b, c))
  {
    var a := Mapping(map["theme" := Scalar("nord")]);
    var b, c := Scalar("off"), Mapping(map["border" := Scalar("line")]);
    assert "theme" in Merge(a, Merge(b, c)).entries;
    assert "theme" !in Merge(Merge(a, b), c).entries;
  }
}
