/** Insertion into nested mutable dictionaries (allama/parse.py). */
module PathObjects {
  import opened Prelude
  import opened PathTree
  import opened PathCodec

  /** What a dictionary holds under a key: a value as it was assigned, which may be an
      object itself, or a dictionary that insertion has entered. */
  datatype Slot = Held(value: Json) | Nested(dict: NestedDict)

  /** Insertion cannot tell an object that was there from one created on the way. */
  lemma DefaultIsInvisible(fields: map<string, Json>, path: Path, value: Json)
    requires |path| > 1
    ensures path[0] !in fields ==>
              InsertAt(fields[path[0] := Dict(map[])], path, value) == InsertAt(fields, path, value)
  {
    var filled := fields[path[0] := Dict(map[])];
    match InsertAt(map[], path[1..], value)
    case None =>
    case Some(inner) =>
      assert filled[path[0] := Dict(inner)] == fields[path[0] := Dict(inner)];
  }

  class NestedDict {
    var slots: map<string, Slot>
    ghost var Contents: map<string, Json>
    ghost var Repr: set<NestedDict>

    /** The dictionaries form a tree, and `Contents` is its value. */
    ghost predicate Valid()
      reads this, Repr
      decreases Repr
    {
      && this in Repr
      && Contents.Keys == slots.Keys
      && (forall k :: k in slots && slots[k].Held? ==> Contents[k] == slots[k].value)
      && (forall k :: k in slots && slots[k].Nested? ==>
            && slots[k].dict in Repr && slots[k].dict.Repr <= Repr
            && this !in slots[k].dict.Repr && slots[k].dict.Valid()
            && Contents[k] == Dict(slots[k].dict.Contents))
      && (forall k, l {:trigger slots[k].dict.Repr, slots[l].dict.Repr} ::
            k in slots && l in slots && k != l && slots[k].Nested? && slots[l].Nested? ==>
              slots[k].dict.Repr !! slots[l].dict.Repr)
    }

    constructor ()
      ensures Valid() && Repr == {this} && Contents == map[]
    {
      slots, Contents, Repr := map[], map[], {this};
    }

    /** A dictionary of its own for the fields of an assigned object. */
    constructor Holding(fields: map<string, Json>)
      ensures Valid() && Repr == {this} && Contents == fields
    {
      slots := map k | k in fields :: Held(fields[k]);
      Contents, Repr := fields, {this};
    }

    /** Makes an assigned object a dictionary that insertion can enter. */
    method Enter(key: string)
      requires Valid() && key in slots && slots[key].Held? && slots[key].value.Dict?
      modifies this
      ensures Valid() && fresh(Repr - old(Repr)) && old(Repr) <= Repr
      ensures key in slots && slots[key].Nested? && Contents == old(Contents)
    {
      var d := new NestedDict.Holding(slots[key].value.fields);
      slots := slots[key := Nested(d)];
      Repr := Repr + {d};
      Rejoin(key);
      assert Contents == old(Contents);
    }

    /** `obj.setdefault(key, {})` */
    method SetDefault(key: string)
      requires Valid()
      modifies this
      ensures Valid() && fresh(Repr - old(Repr)) && old(Repr) <= Repr
      ensures key in slots
      ensures Contents == if key in old(Contents) then old(Contents) else old(Contents)[key := Dict(map[])]
    {
      if key !in slots {
        var d := new NestedDict();
        slots := slots[key := Nested(d)];
        Contents := Contents[key := Dict(map[])];
        Repr := Repr + {d};
        Rejoin(key);
      }
    }

    /** `obj[leaf] = value` */
    method Assign(key: string, value: Json)
      requires Valid()
      modifies this
      ensures Valid() && Repr == old(Repr)
      ensures Contents == old(Contents)[key := value]
    {
      slots := slots[key := Held(value)];
      Contents := Contents[key := value];
    }

    /** Gets a dictionary under `key` ready to be entered, unless another value is there. */
    method Prepare(key: string) returns (ok: bool)
      requires Valid()
      modifies this
      ensures Valid() && fresh(Repr - old(Repr)) && old(Repr) <= Repr
      ensures key in slots && (ok ==> slots[key].Nested?)
      ensures Contents == if key in old(Contents) then old(Contents) else old(Contents)[key := Dict(map[])]
      ensures ok <==> Contents[key].Dict?
    {
      SetDefault(key);
      if slots[key].Held? {
        if !slots[key].value.Dict? {
          return false;
        }
        Enter(key);
      }
      return true;
    }

    /** The dictionary under `key` takes the rest of the path. */
    method Descend(key: string, rest: Path, value: Json) returns (ok: bool)
      requires Valid() && rest != [] && key in slots && slots[key].Nested?
      modifies Repr
      ensures Valid() && fresh(Repr - old(Repr)) && old(Repr) <= Repr
      ensures ok <==> InsertAt(old(slots[key].dict.Contents), rest, value).Some?
      ensures ok ==> var inner := InsertAt(old(slots[key].dict.Contents), rest, value).value;
                     Contents == old(Contents)[key := Dict(inner)]
      decreases |rest|, 1
    {
      var sub := slots[key].dict;
      ok := sub.InsertByPath(rest, value);
      forall k | k in slots && k != key && slots[k].Nested?
        ensures slots[k].dict.Repr == old(slots[k].dict.Repr) && slots[k].dict.Valid()
      {
      }
      Rejoin(key);
    }

    /** Takes up a change that the dictionary under `key` has made to itself. */
    ghost method Rejoin(key: string)
      requires this in Repr && Contents.Keys == slots.Keys && key in slots && slots[key].Nested?
      requires forall k :: k in slots && slots[k].Held? ==> Contents[k] == slots[k].value
      requires forall k :: k in slots && slots[k].Nested? ==>
                 && slots[k].dict in Repr && this !in slots[k].dict.Repr && slots[k].dict.Valid()
                 && (k != key ==> slots[k].dict.Repr <= Repr && Contents[k] == Dict(slots[k].dict.Contents))
      requires forall k, l {:trigger slots[k].dict.Repr, slots[l].dict.Repr} ::
                 k in slots && l in slots && k != l && slots[k].Nested? && slots[l].Nested? ==>
                   slots[k].dict.Repr !! slots[l].dict.Repr
      modifies this`Contents, this`Repr
      ensures Valid() && Repr == old(Repr) + slots[key].dict.Repr
      ensures Contents == old(Contents)[key := Dict(slots[key].dict.Contents)]
    {
      Contents := Contents[key := Dict(slots[key].dict.Contents)];
      Repr := Repr + slots[key].dict.Repr;
    }

    /** Walks down the stem, creating dictionaries where keys are missing, and assigns
        the leaf; false stands for the exception on a value that is no dictionary. */
    method InsertByPath(path: Path, value: Json) returns (ok: bool)
      requires Valid() && path != []
      modifies Repr
      ensures Valid() && fresh(Repr - old(Repr)) && old(Repr) <= Repr
      ensures ok <==> InsertAt(old(Contents), path, value).Some?
      ensures ok ==> Some(Contents) == InsertAt(old(Contents), path, value)
      decreases |path|, 0
    {
      var key := path[0];
      if |path| == 1 {
        Assign(key, value);
        return true;
      }
      DefaultIsInvisible(Contents, path, value);
      ok := Prepare(key);
      if ok {
        ok := Descend(key, path[1..], value);
      }
    }
  }

  /** `reconstruct_obj`: inserts every pair in turn. */
  method ReconstructObj(flat: seq<(string, Json)>) returns (ok: bool, obj: NestedDict)
    ensures ok <==> Rebuild(flat).Some?
    ensures ok ==> obj.Valid() && Some(obj.Contents) == Rebuild(flat)
  {
    obj := new NestedDict();
    for i := 0 to |flat|
      invariant obj.Valid() && fresh(obj.Repr)
      invariant RebuildFrom(obj.Contents, flat[i..]) == Rebuild(flat)
    {
      assert flat[i..][1..] == flat[i + 1..];
      ok := obj.InsertByPath(Split(flat[i].0), Unwrap(flat[i].1));
      if !ok {
        return;
      }
    }
    ok := true;
  }
}
