/** The recursive overlay merge that layers the model manifests, and its laws. */
module ConfigMerge {
  import opened Common

  /** A configuration value: a dictionary, or anything else (opaque here). */
  datatype Json = Other(id: int) | Dict(fields: Fields)

  type Fields = map<string, Json>

  function Merged(base: Fields, overlay: Fields): (m: Fields)
    ensures m.Keys == base.Keys + overlay.Keys
    decreases Dict(base), 0
  {
    map k | k in base.Keys + overlay.Keys ::
      if k !in overlay then base[k]
      else if k in base then MergedValue(base[k], overlay[k])
      else overlay[k]
  }

  /** What the merge leaves at a key that both sides have. */
  function MergedValue(b: Json, o: Json): Json
    decreases b, 1
  {
    if b.Dict? && o.Dict? then Dict(Merged(b.fields, o.fields)) else o
  }

  function Restrict(overlay: Fields, keys: set<string>): Fields {
    map k | k in overlay && k in keys :: overlay[k]
  }

  /** Overlaying one more key changes just that key. */
  lemma MergeOneMoreAt(base: Fields, overlay: Fields, done: set<string>, key: string, k: string)
    requires key in overlay && key !in done
    ensures var before, after := Merged(base, Restrict(overlay, done)), Merged(base, Restrict(overlay, done + {key}));
            if k == key then k in after && after[k] == if k in base then MergedValue(base[k], overlay[k]) else overlay[k]
            else (k in after <==> k in before) && (k in after ==> after[k] == before[k])
  {
  }

  lemma MergeOneMore(base: Fields, overlay: Fields, done: set<string>, key: string)
    requires key in overlay && key !in done
    ensures var before := Merged(base, Restrict(overlay, done));
            (key in before <==> key in base) && (key in base ==> before[key] == base[key]) &&
            Merged(base, Restrict(overlay, done + {key})) ==
            before[key := if key in base then MergedValue(base[key], overlay[key]) else overlay[key]]
  {
    var before, after := Merged(base, Restrict(overlay, done)), Merged(base, Restrict(overlay, done + {key}));
    forall k
      ensures k in after <==> k in before || k == key
      ensures k in before && k != key ==> after[k] == before[k]
    {
      MergeOneMoreAt(base, overlay, done, key, k);
    }
    MergeOneMoreAt(base, overlay, done, key, key);
  }

  /** deep_merge: copy the base, then go through the overlay's items, in any order. */
  method DeepMerge(base: Fields, overlay: Fields) returns (result: Fields)
    ensures result == Merged(base, overlay)
    decreases Dict(base)
  {
    result := base;
    var done: set<string> := {};
    while overlay.Keys - done != {}
      invariant done <= overlay.Keys
      invariant result == Merged(base, Restrict(overlay, done))
      decreases overlay.Keys - done
    {
      var key :| key in overlay.Keys - done;
      MergeOneMore(base, overlay, done, key);
      var value := overlay[key];
      if key in result && result[key].Dict? && value.Dict? {
        var merged := DeepMerge(result[key].fields, value.fields);
        result := result[key := Dict(merged)];
      } else {
        result := result[key := value];
      }
      done := done + {key};
    }
    assert overlay.Keys == (overlay.Keys - done) + done;
    assert Restrict(overlay, done) == overlay;
  }

  // ---------------------------------------------------------------------------
  // What the merge leaves at every path
  // ---------------------------------------------------------------------------

  type Path = seq<string>

  function At(j: Json, p: Path): Option<Json> {
    if p == [] then Some(j)
    else if j.Dict? && p[0] in j.fields then At(j.fields[p[0]], p[1..])
    else None
  }

  /** On the way to p there is a path where both layers have a value and at least one
      of the two values is not a dictionary. */
  predicate Replaced(b: Json, o: Json, p: Path) {
    if !b.Dict? || !o.Dict? then true
    else p != [] && p[0] in o.fields && p[0] in b.fields && Replaced(b.fields[p[0]], o.fields[p[0]], p[1..])
  }

  /** The value at every path of the merge, from the two layers alone: below a
      replacement only the overlay counts; elsewhere the overlay's value wins where
      it is not a dictionary facing a dictionary, and paths the overlay does not
      have keep the base's value. */
  lemma {:induction false} MergeAtPath(b: Json, o: Json, p: Path)
    ensures Replaced(b, o, p) ==> At(MergedValue(b, o), p) == At(o, p)
    ensures !Replaced(b, o, p) ==>
              At(MergedValue(b, o), p) ==
              match (At(b, p), At(o, p))
              case (Some(x), Some(y)) => Some(MergedValue(x, y))
              case (None, y) => y
              case (x, None) => x
    decreases p
  {
    if b.Dict? && o.Dict? && p != [] {
      var k := p[0];
      if k in b.fields && k in o.fields {
        MergeAtPath(b.fields[k], o.fields[k], p[1..]);
      }
    }
  }

  // ---------------------------------------------------------------------------
  // Algebraic laws
  // ---------------------------------------------------------------------------

  lemma EmptyIsIdentity(m: Fields)
    ensures Merged(m, map[]) == m && Merged(map[], m) == m
  {
  }

  lemma {:induction false} MergeWithSelf(m: Fields)
    ensures Merged(m, m) == m
    decreases Dict(m)
  {
    forall k | k in m && m[k].Dict? ensures Merged(m[k].fields, m[k].fields) == m[k].fields {
      MergeWithSelf(m[k].fields);
    }
  }

  /** Layering the same overlay twice is layering it once. */
  lemma {:induction false} MergeIsIdempotent(base: Fields, overlay: Fields)
    ensures Merged(Merged(base, overlay), overlay) == Merged(base, overlay)
    decreases Dict(base), 0
  {
    var once := Merged(base, overlay);
    forall k | k in overlay ensures MergedValue(once[k], overlay[k]) == once[k] {
      if k in base && base[k].Dict? && overlay[k].Dict? {
        MergeIsIdempotent(base[k].fields, overlay[k].fields);
      } else if overlay[k].Dict? {
        MergeWithSelf(overlay[k].fields);
      }
    }
  }

  /** Nothing of a survives a merge under c: c has every key of a, again below every
      key where both hold dictionaries. */
  predicate Absorbed(a: Fields, c: Fields)
    decreases Dict(a)
  {
    forall k :: k in a ==>
      k in c && (a[k].Dict? && c[k].Dict? ==> Absorbed(a[k].fields, c[k].fields))
  }

  lemma {:induction false} AbsorbedIffMergeIsOverlay(a: Fields, c: Fields)
    ensures Absorbed(a, c) <==> Merged(a, c) == c
    decreases Dict(a)
  {
    forall k | k in a && k in c && a[k].Dict? && c[k].Dict?
      ensures Absorbed(a[k].fields, c[k].fields) <==> MergedValue(a[k], c[k]) == c[k]
    {
      AbsorbedIffMergeIsOverlay(a[k].fields, c[k].fields);
    }
    if Merged(a, c) == c {
      forall k | k in a ensures k in c && (a[k].Dict? && c[k].Dict? ==> Absorbed(a[k].fields, c[k].fields)) {
        assert k in Merged(a, c);
      }
    }
  }

  /** No path where the middle layer holds a non-dictionary between two
      dictionaries, unless the last layer absorbs the first one there. */
  predicate NoBarrier(a: Fields, b: Fields, c: Fields)
    decreases Dict(a)
  {
    forall k :: k in a && k in b && k in c && a[k].Dict? && c[k].Dict? ==>
      if b[k].Dict? then NoBarrier(a[k].fields, b[k].fields, c[k].fields)
      else Absorbed(a[k].fields, c[k].fields)
  }

  lemma GroupingAtKey(a: Fields, b: Fields, c: Fields, k: string)
    requires k in a && k in b && k in c
    ensures Merged(Merged(a, b), c)[k] == MergedValue(MergedValue(a[k], b[k]), c[k])
    ensures Merged(a, Merged(b, c))[k] == MergedValue(a[k], MergedValue(b[k], c[k]))
  {
  }

  lemma GroupingElsewhere(a: Fields, b: Fields, c: Fields, k: string)
    requires k in a.Keys + b.Keys + c.Keys && !(k in a && k in b && k in c)
    ensures Merged(Merged(a, b), c)[k] == Merged(a, Merged(b, c))[k]
  {
  }

  /** Three layers may be grouped either way exactly when there is no barrier. */
  lemma {:induction false} AssociativeIffNoBarrier(a: Fields, b: Fields, c: Fields)
    ensures NoBarrier(a, b, c) <==> Merged(Merged(a, b), c) == Merged(a, Merged(b, c))
    decreases Dict(a)
  {
    var left, right := Merged(Merged(a, b), c), Merged(a, Merged(b, c));
    forall k | k in a.Keys + b.Keys + c.Keys
      ensures left[k] == right[k] <==>
              (k in a && k in b && k in c && a[k].Dict? && c[k].Dict? ==>
                 if b[k].Dict? then NoBarrier(a[k].fields, b[k].fields, c[k].fields)
                 else Absorbed(a[k].fields, c[k].fields))
    {
      if k in a && k in b && k in c {
        GroupingAtKey(a, b, c, k);
        if a[k].Dict? && c[k].Dict? {
          if b[k].Dict? {
            AssociativeIffNoBarrier(a[k].fields, b[k].fields, c[k].fields);
          } else {
            AbsorbedIffMergeIsOverlay(a[k].fields, c[k].fields);
          }
        }
      } else {
        GroupingElsewhere(a, b, c, k);
      }
    }
    if left == right {
      forall k | k in a && k in b && k in c && a[k].Dict? && c[k].Dict?
        ensures if b[k].Dict? then NoBarrier(a[k].fields, b[k].fields, c[k].fields)
                else Absorbed(a[k].fields, c[k].fields)
      {
        assert k in left;
      }
    }
  }

  /** A barrier that breaks associativity. */
  lemma GroupingCanMatter()
    ensures var a: Fields := map["k" := Dict(map["x" := Other(1)])];
            var b: Fields := map["k" := Other(0)];
            var c: Fields := map["k" := Dict(map["y" := Other(2)])];
            Merged(Merged(a, b), c) != Merged(a, Merged(b, c))
  {
    var a: Fields := map["k" := Dict(map["x" := Other(1)])];
    var b: Fields := map["k" := Other(0)];
    var c: Fields := map["k" := Dict(map["y" := Other(2)])];
    assert !Absorbed(a["k"].fields, c["k"].fields) by {
      assert "x" in a["k"].fields && "x" !in c["k"].fields;
    }
    assert !NoBarrier(a, b, c) by {
      assert "k" in a;
    }
    AssociativeIffNoBarrier(a, b, c);
  }
}
