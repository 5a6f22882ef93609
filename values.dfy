/** Optional values: an argument that may be absent (`null`/`undefined` in the
    component code). */
module Wrappers {
  datatype Option<+T> = None | Some(value: T)
}

/** Template values and the value comparator that decides whether two
    interpolated values count as "unchanged" for re-render purposes. */
module Values {

  datatype Primitive = Num(n: int) | Str(s: string) | Bool(b: bool)

  /** A value interpolated into a template. Functions and objects carry a
      reference (`fref`, `oref`): two of them are strictly identical exactly
      when their references are. An `Obj` is a snapshot of an object's own
      properties, in property order. */
  datatype Value =
    | Undefined
    | Null
    | Prim(p: Primitive)
    | Func(fref: nat)
    | Obj(oref: nat, fields: seq<Field>)

  datatype Field = Field(key: string, val: Value)

  /** The result of the `typeof` operator; `null` reports "object". */
  function TypeOf(v: Value): string
  {
    match v
    case Undefined => "undefined"
    case Null => "object"
    case Prim(Num(_)) => "number"
    case Prim(Str(_)) => "string"
    case Prim(Bool(_)) => "boolean"
    case Func(_) => "function"
    case Obj(_, _) => "object"
  }

  /** Strict identity (`===`): primitives by value, functions and objects by
      reference. */
  predicate StrictEq(a: Value, b: Value)
  {
    match (a, b)
    case (Undefined, Undefined) => true
    case (Null, Null) => true
    case (Prim(p), Prim(q)) => p == q
    case (Func(f), Func(g)) => f == g
    case (Obj(r, _), Obj(s, _)) => r == s
    case _ => false
  }

  /** Structural equality: the same object (at any depth) is equal to itself,
      and otherwise objects are equal when they have the same keys in the same
      order and pairwise deep-equal values, whatever their references. */
  predicate DeepEqual(a: Value, b: Value)
    decreases a
  {
    match (a, b)
    case (Obj(r, fs), Obj(q, gs)) =>
      r == q ||
      (|fs| == |gs| &&
       forall i :: 0 <= i < |fs| ==> fs[i].key == gs[i].key && DeepEqual(fs[i].val, gs[i].val))
    case _ => StrictEq(a, b)
  }

  /** The comparator the frame loop uses: true when two values are to be
      treated as unchanged. */
  predicate CompareTwo(a: Value, b: Value): (r: bool)
    // any two functions are equal, whatever their references
    ensures a.Func? && b.Func? ==> r
    // strictly identical values are equal: the comparator is reflexive, and an
    // object mutated in place (same reference, new contents) reads as unchanged
    ensures StrictEq(a, b) ==> r
    // values that are neither objects nor both functions compare by identity
    ensures !a.Obj? && !b.Obj? && !(a.Func? && b.Func?) ==> (r <==> StrictEq(a, b))
    // objects under different references compare by structure
    ensures a.Obj? && b.Obj? && a.oref != b.oref ==> (r <==> DeepEqual(a, b))
    // an object never equals a non-object
    ensures a.Obj? != b.Obj? ==> !r
  {
    if TypeOf(a) == "function" && TypeOf(b) == "function" then true
    else if !StrictEq(a, b) then
      if TypeOf(a) == "object" && TypeOf(b) == "object" then DeepEqual(a, b) else false
    else true
  }

  /** The value with every object reference, at every depth, replaced by
      `f` of it: a deep copy when `f` gives fresh references. */
  function Rename(a: Value, f: nat -> nat): Value
    decreases a
  {
    match a
    case Obj(r, fs) =>
      Obj(f(r), seq(|fs|, i requires 0 <= i < |fs| => Field(fs[i].key, Rename(fs[i].val, f))))
    case _ => a
  }

  /** A deep copy under any renaming of references is deep-equal to the
      original. */
  lemma {:induction false} RenamedIsDeepEqual(a: Value, f: nat -> nat)
    ensures DeepEqual(a, Rename(a, f))
    decreases a
  {
    match a
    case Obj(r, fs) =>
      var gs := Rename(a, f).fields;
      forall i | 0 <= i < |fs|
        ensures fs[i].key == gs[i].key && DeepEqual(fs[i].val, gs[i].val)
      {
        RenamedIsDeepEqual(fs[i].val, f);
      }
    case _ =>
  }

  lemma {:induction false} DeepEqualSymmetric(a: Value, b: Value)
    requires DeepEqual(a, b)
    ensures DeepEqual(b, a)
    decreases a
  {
    match (a, b)
    case (Obj(r, fs), Obj(q, gs)) =>
      if r != q {
        forall i | 0 <= i < |gs|
          ensures gs[i].key == fs[i].key && DeepEqual(gs[i].val, fs[i].val)
        {
          DeepEqualSymmetric(fs[i].val, gs[i].val);
        }
      }
    case _ =>
  }

  /** Deep-equal values always compare equal. */
  lemma DeepEqualIsCompareEqual(a: Value, b: Value)
    requires DeepEqual(a, b)
    ensures CompareTwo(a, b)
  {
  }

  /** A render that builds a fresh object each frame around the same
      property values (objects shared by reference, mutated in place or not,
      functions, primitives) reads as unchanged, whatever the snapshots of the
      shared objects say. */
  lemma SharedFieldsAreUnchanged(a: Value, b: Value)
    requires a.Obj? && b.Obj? && |a.fields| == |b.fields|
    requires forall i :: 0 <= i < |a.fields| ==>
               a.fields[i].key == b.fields[i].key && StrictEq(a.fields[i].val, b.fields[i].val)
    ensures CompareTwo(a, b)
  {
  }

  /** The comparator is symmetric. */
  lemma {:induction false} CompareTwoSymmetric(a: Value, b: Value)
    requires CompareTwo(a, b)
    ensures CompareTwo(b, a)
  {
    if StrictEq(a, b) || (a.Func? && b.Func?) {
    } else {
      DeepEqualSymmetric(a, b);
    }
  }
}
