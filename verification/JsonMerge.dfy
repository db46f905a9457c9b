/** Merging a change into the settings: recursive merge of JSON values. */
module JsonMerge {
  import opened Bytes

  datatype Value =
    | Null
    | Bool(b: bool)
    | Number(n: real)
    | String(s: string)
    | Array(items: seq<Value>)
    | Object(fields: map<string, Value>)

  /** `json_merge`: the value `a` ends up with. */
  function Merge(a: Value, b: Value): Value
    decreases b
  {
    if a.Object? && b.Object? then
      Object(map k | k in a.fields.Keys + b.fields.Keys ::
        if k in b.fields then Merge(Field(a, k), b.fields[k]) else a.fields[k])
    else b
  }

  /** The field an entry starts from: a missing one is first set to null. */
  function Field(v: Value, k: string): Value {
    if v.Object? && k in v.fields then v.fields[k] else Null
  }

  /** The in-place recursion over the entries of `b`, in any order. */
  method JsonMergeInto(a: Value, b: Value) returns (r: Value)
    ensures r == Merge(a, b)
    decreases b
  {
    if a.Object? && b.Object? {
      var fields := a.fields;
      var todo := b.fields.Keys;
      while todo != {}
        invariant todo <= b.fields.Keys
        invariant fields.Keys == a.fields.Keys + (b.fields.Keys - todo)
        invariant forall k :: k in fields ==>
          fields[k] == if k in b.fields && k !in todo then Merge(Field(a, k), b.fields[k]) else a.fields[k]
        decreases todo
      {
        var k :| k in todo;
        var slot := if k in fields then fields[k] else Null;
        assert slot == Field(a, k);
        var merged := JsonMergeInto(slot, b.fields[k]);
        fields := fields[k := merged];
        todo := todo - {k};
      }
      r := Object(fields);
      assert fields == Merge(a, b).fields;
    } else {
      r := b;
    }
  }

  // ------------------------------------------------------------------ reading by path

  function Get(v: Value, path: seq<string>): Option<Value>
    decreases |path|
  {
    if path == [] then Some(v)
    else if v.Object? && path[0] in v.fields then Get(v.fields[path[0]], path[1..])
    else None
  }

  /** The change says nothing about this path: it leads to an object that lacks the next key. */
  predicate Untouched(b: Value, path: seq<string>)
    decreases |path|
  {
    path != [] && b.Object? && (path[0] in b.fields ==> Untouched(b.fields[path[0]], path[1..]))
  }

  function OrNull(v: Option<Value>): Value {
    match v case Some(x) => x case None => Null
  }

  lemma {:induction false} UntouchedIsAbsent(b: Value, path: seq<string>)
    requires Untouched(b, path)
    ensures Get(b, path) == None
    decreases |path|
  {
    if path[0] in b.fields {
      UntouchedIsAbsent(b.fields[path[0]], path[1..]);
    }
  }

  /**
   * What the result reads at every path: where the change has a value, the merge of both values; where
   * it leaves the path untouched, the old value; and nothing below a value it has overwritten.
   */
  lemma {:induction false} MergeReads(a: Value, b: Value, path: seq<string>)
    ensures Get(Merge(a, b), path) ==
      if Get(b, path).Some? then Some(Merge(OrNull(Get(a, path)), Get(b, path).value))
      else if Untouched(b, path) then Get(a, path)
      else None
    decreases |path|
  {
    if path != [] {
      var k, rest := path[0], path[1..];
      if a.Object? && b.Object? {
        if k in b.fields {
          MergeReads(Field(a, k), b.fields[k], rest);
          if k !in a.fields {
            ReadsOfNull(b.fields[k], rest);
          }
        }
      } else if b.Object? && k in b.fields {
        ReadsOfNull(b.fields[k], rest);
        if Untouched(b, path) {
          UntouchedIsAbsent(b, path);
        }
      }
    }
  }

  /** Reading through a missing value. */
  lemma ReadsOfNull(b: Value, path: seq<string>)
    ensures Untouched(b, path) ==> Get(Null, path) == None
    ensures Merge(Null, b) == b
    ensures Get(b, path).Some? ==> Merge(OrNull(Get(Null, path)), Get(b, path).value) == Get(b, path).value
  {
  }

  /** In particular a value of the change that is not an object is read back as it is. */
  lemma ChangeWins(a: Value, b: Value, path: seq<string>)
    requires Get(b, path).Some? && !Get(b, path).value.Object?
    ensures Get(Merge(a, b), path) == Get(b, path)
  {
    MergeReads(a, b, path);
  }

  // ------------------------------------------------------------------ algebra

  lemma FieldOfMerge(a: Value, b: Value, k: string)
    requires b.Object? && k in b.fields
    ensures Field(Merge(a, b), k) == if a.Object? then Merge(Field(a, k), b.fields[k]) else b.fields[k]
  {
  }

  /** Every value merged with itself is itself. */
  lemma {:induction false} MergeSelf(b: Value)
    ensures Merge(b, b) == b
    decreases b
  {
    if b.Object? {
      forall k | k in b.fields ensures Merge(b, b).fields[k] == b.fields[k] {
        MergeSelf(b.fields[k]);
      }
      assert Merge(b, b).fields == b.fields;
    }
  }

  /** Merging the same change twice is merging it once. */
  lemma {:induction false} MergeTwice(a: Value, b: Value)
    ensures Merge(Merge(a, b), b) == Merge(a, b)
    decreases b
  {
    if a.Object? && b.Object? {
      var once, twice := Merge(a, b), Merge(Merge(a, b), b);
      forall k | k in b.fields ensures twice.fields[k] == once.fields[k] {
        MergeTwice(Field(a, k), b.fields[k]);
      }
      assert twice.fields == once.fields;
    } else {
      MergeSelf(b);
    }
  }

  /** The middle value has no plain value where the last one has an object. */
  ghost predicate Regroups(b: Value, c: Value)
    decreases c
  {
    c.Object? ==>
      b.Object? && forall k :: k in b.fields && k in c.fields ==> Regroups(b.fields[k], c.fields[k])
  }

  lemma {:induction false} MergeAssociates(a: Value, b: Value, c: Value)
    requires Regroups(b, c)
    ensures Merge(Merge(a, b), c) == Merge(a, Merge(b, c))
    decreases c
  {
    if b.Object? && c.Object? && a.Object? {
      var left, right := Merge(Merge(a, b), c), Merge(a, Merge(b, c));
      assert left.fields.Keys == right.fields.Keys;
      forall k | k in left.fields ensures left.fields[k] == right.fields[k] {
        if k in c.fields && k in b.fields {
          MergeAssociates(Field(a, k), b.fields[k], c.fields[k]);
          FieldOfMerge(a, b, k);
          FieldOfMerge(b, c, k);
        } else if k in c.fields {
          assert Field(Merge(a, b), k) == Field(a, k);
          assert Merge(b, c).fields[k] == Merge(Null, c.fields[k]) == c.fields[k];
        }
      }
      assert left.fields == right.fields;
    }
  }

  lemma {:induction false} FreshKey(keys: set<string>) returns (unused: string)
    ensures unused !in keys && forall k :: k in keys ==> |k| < |unused|
  {
    if keys == {} {
      unused := "x";
    } else {
      var k :| k in keys;
      var shorter := FreshKey(keys - {k});
      unused := shorter + k + "x";
      forall j | j in keys ensures |j| < |unused| {
        if j != k {
          assert j in keys - {k};
        }
      }
    }
  }

  /** Where the condition fails some starting value shows it. */
  lemma {:induction false} RegroupingFails(b: Value, c: Value) returns (a: Value)
    requires !Regroups(b, c)
    ensures Merge(Merge(a, b), c) != Merge(a, Merge(b, c))
    decreases c
  {
    if !b.Object? {
      var k := FreshKey(c.fields.Keys);
      a := Object(map[k := Null]);
      assert k in Merge(a, Merge(b, c)).fields && k !in Merge(Merge(a, b), c).fields;
    } else {
      var k :| k in b.fields && k in c.fields && !Regroups(b.fields[k], c.fields[k]);
      var inner := RegroupingFails(b.fields[k], c.fields[k]);
      a := Object(map[k := inner]);
      assert Merge(Merge(a, b), c).fields[k] == Merge(Merge(inner, b.fields[k]), c.fields[k]);
      assert Merge(a, Merge(b, c)).fields[k] == Merge(inner, Merge(b.fields[k], c.fields[k]));
    }
  }

  /** Two changes can be combined before they are applied, to any settings, exactly under this condition. */
  lemma RegroupIff(b: Value, c: Value)
    ensures (forall a :: Merge(Merge(a, b), c) == Merge(a, Merge(b, c))) <==> Regroups(b, c)
  {
    if Regroups(b, c) {
      forall a ensures Merge(Merge(a, b), c) == Merge(a, Merge(b, c)) {
        MergeAssociates(a, b, c);
      }
    } else {
      var a := RegroupingFails(b, c);
    }
  }
}
