/** Item ids of allama/ai/ranker.py and the normalisation of ids a model returns. */
module Ids {
  import opened Prelude

  datatype Id = Str(s: string) | Num(n: int)

  /** The parts of Python's text handling the ranker relies on: which characters
      `str.strip` removes and what `int()` reads. */
  datatype TextRules = TextRules(space: char -> bool, parseInt: string -> Option<int>)

  function StripLeft(rules: TextRules, s: string): string {
    if s != [] && rules.space(s[0]) then StripLeft(rules, s[1..]) else s
  }

  function StripRight(rules: TextRules, s: string): string {
    if s != [] && rules.space(s[|s| - 1]) then StripRight(rules, s[..|s| - 1]) else s
  }

  function Unquote(s: string): string {
    if |s| >= 2 && s[0] == '`' && s[|s| - 1] == '`' then s[1..|s| - 1] else s
  }

  /** An exact string id is preferred over the number the string denotes. */
  function Normalize(rules: TextRules, value: Id, valid: set<Id>): Id {
    match value
    case Num(_) => value
    case Str(raw) =>
      var s := Unquote(StripRight(rules, StripLeft(rules, raw)));
      if Str(s) in valid then Str(s)
      else match rules.parseInt(s)
           case Some(n) => if Num(n) in valid then Num(n) else Str(s)
           case None => Str(s)
  }

  method SanitizeIds(rules: TextRules, returned: seq<Id>, valid: set<Id>) returns (filtered: seq<Id>)
    ensures filtered == Sanitized(rules, returned, valid)
  {
    var seen: set<Id> := {};
    filtered := [];
    for i := 0 to |returned|
      invariant seen == Elements(filtered)
      invariant filtered + SanitizedFrom(rules, returned[i..], valid, seen)
             == Sanitized(rules, returned, valid)
    {
      var norm := Normalize(rules, returned[i], valid);
      assert returned[i..][1..] == returned[i + 1..];
      ghost var rest := SanitizedFrom(rules, returned[i + 1..], valid, seen + {norm});
      if norm in valid && norm !in seen {
        assert filtered + ([norm] + rest) == (filtered + [norm]) + rest;
        filtered := filtered + [norm];
        seen := seen + {norm};
      }
    }
  }

  /** The valid normalised ids in order of first appearance, apart from those in `seen`. */
  function SanitizedFrom(rules: TextRules, returned: seq<Id>, valid: set<Id>, seen: set<Id>): seq<Id> {
    if returned == [] then []
    else
      var norm := Normalize(rules, returned[0], valid);
      if norm in valid && norm !in seen
      then [norm] + SanitizedFrom(rules, returned[1..], valid, seen + {norm})
      else SanitizedFrom(rules, returned[1..], valid, seen)
  }

  function Sanitized(rules: TextRules, returned: seq<Id>, valid: set<Id>): seq<Id> {
    SanitizedFrom(rules, returned, valid, {})
  }

  /** Whatever the model returns, what remains is duplicate free and holds exactly the
      valid ids that some returned value normalises to. */
  lemma {:induction false} SanitizedFromSpec(rules: TextRules, returned: seq<Id>, valid: set<Id>, seen: set<Id>)
    ensures NoDuplicates(SanitizedFrom(rules, returned, valid, seen))
    ensures forall x :: x in SanitizedFrom(rules, returned, valid, seen) <==>
              x in valid && x !in seen && exists v :: v in returned && Normalize(rules, v, valid) == x
  {
    if returned != [] {
      var norm := Normalize(rules, returned[0], valid);
      var isNew := norm in valid && norm !in seen;
      SanitizedFromSpec(rules, returned[1..], valid, if isNew then seen + {norm} else seen);
      assert returned == [returned[0]] + returned[1..];
    }
  }

  lemma SanitizedSpec(rules: TextRules, returned: seq<Id>, valid: set<Id>)
    ensures NoDuplicates(Sanitized(rules, returned, valid))
    ensures forall x :: x in Sanitized(rules, returned, valid) <==>
              x in valid && exists v :: v in returned && Normalize(rules, v, valid) == x
  {
    SanitizedFromSpec(rules, returned, valid, {});
  }

  /** An answer that lists valid ids without repetition comes through unchanged, as far
      as normalisation leaves the single ids alone. */
  lemma {:induction false} SanitizedIdentity(rules: TextRules, raw: seq<Id>, ids: seq<Id>,
                                             valid: set<Id>, seen: set<Id>)
    requires |raw| == |ids| && NoDuplicates(ids)
    requires forall i :: 0 <= i < |ids| ==>
               ids[i] in valid && ids[i] !in seen && Normalize(rules, raw[i], valid) == ids[i]
    ensures SanitizedFrom(rules, raw, valid, seen) == ids
  {
    if ids != [] {
      SanitizedIdentity(rules, raw[1..], ids[1..], valid, seen + {ids[0]});
    }
  }

  /** A valid id is recovered from its quoted form and from its bare form, provided the
      bare form is neither padded nor quoted itself. */
  lemma NormalizeRecovers(rules: TextRules, s: string, valid: set<Id>)
    requires Str(s) in valid && !rules.space('`')
    ensures Normalize(rules, Str("`" + s + "`"), valid) == Str(s)
    ensures s != [] && !rules.space(s[0]) && !rules.space(s[|s| - 1]) && Unquote(s) == s ==>
              Normalize(rules, Str(s), valid) == Str(s)
  {
    var q := "`" + s + "`";
    assert StripLeft(rules, q) == q && StripRight(rules, q) == q;
    assert q[1..|q| - 1] == s;
  }

  ghost predicate Blank(rules: TextRules, s: string) {
    forall i :: 0 <= i < |s| ==> rules.space(s[i])
  }

  /** Neither end is white space. */
  ghost predicate Bare(rules: TextRules, s: string) {
    s != "" ==> !rules.space(s[0]) && !rules.space(s[|s| - 1])
  }

  lemma {:induction false} StripLeftOf(rules: TextRules, pad: string, s: string)
    requires Blank(rules, pad) && (s != "" ==> !rules.space(s[0]))
    ensures StripLeft(rules, pad + s) == s
  {
    if pad == "" {
      assert pad + s == s;
    } else {
      StripLeftOf(rules, pad[1..], s);
      assert (pad + s)[1..] == pad[1..] + s;
    }
  }

  lemma {:induction false} StripRightOf(rules: TextRules, s: string, pad: string)
    requires Blank(rules, pad) && (s != "" ==> !rules.space(s[|s| - 1]))
    ensures StripRight(rules, s + pad) == s
    decreases |pad|
  {
    if pad == "" {
      assert s + pad == s;
    } else {
      var shorter := pad[..|pad| - 1];
      StripRightOf(rules, s, shorter);
      assert (s + pad)[..|s + pad| - 1] == s + shorter;
    }
  }

  lemma Stripped(rules: TextRules, left: string, core: string, right: string)
    requires Blank(rules, left) && Blank(rules, right) && Bare(rules, core)
    ensures StripRight(rules, StripLeft(rules, left + core + right)) == core
  {
    if core == "" {
      assert left + core + right == (left + right) + "" && "" + "" == "";
      StripLeftOf(rules, left + right, "");
      StripRightOf(rules, "", "");
    } else {
      assert left + core + right == left + (core + right);
      StripLeftOf(rules, left, core + right);
      StripRightOf(rules, core, right);
    }
  }

  /** What a returned text stands for: white space around it and one pair of backticks are
      dropped; the rest is the id it spells if that is valid, else the number it denotes if
      that is valid. */
  lemma NormalizeSpells(rules: TextRules, left: string, core: string, right: string, valid: set<Id>)
    requires Blank(rules, left) && Blank(rules, right) && Bare(rules, core)
    ensures var quoted := |core| >= 2 && core[0] == '`' && core[|core| - 1] == '`';
            var s := if quoted then core[1..|core| - 1] else core;
            var id := Normalize(rules, Str(left + core + right), valid);
            && (Str(s) in valid ==> id == Str(s))
            && (Str(s) !in valid ==>
                  (forall n :: rules.parseInt(s) == Some(n) && Num(n) in valid ==> id == Num(n)))
            && (Str(s) !in valid && (forall n :: rules.parseInt(s) == Some(n) ==> Num(n) !in valid) ==> id !in valid)
    ensures forall n :: Normalize(rules, Num(n), valid) == Num(n)
  {
    Stripped(rules, left, core, right);
  }

  /** The value at `place` is the first one that stands for `x`. */
  ghost predicate FirstAt(rules: TextRules, returned: seq<Id>, valid: set<Id>, place: nat, x: Id) {
    && place < |returned| && Normalize(rules, returned[place], valid) == x
    && forall i :: 0 <= i < place ==> Normalize(rules, returned[i], valid) != x
  }

  lemma FirstAfterOther(rules: TextRules, returned: seq<Id>, valid: set<Id>, place: nat, x: Id)
    requires returned != [] && Normalize(rules, returned[0], valid) != x
    requires FirstAt(rules, returned[1..], valid, place, x)
    ensures FirstAt(rules, returned, valid, place + 1, x)
  {
    forall i | 0 <= i < place + 1
      ensures Normalize(rules, returned[i], valid) != x
    {
      assert i > 0 ==> returned[i] == returned[1..][i - 1];
    }
  }

  ghost predicate FirstPlaces(rules: TextRules, returned: seq<Id>, valid: set<Id>, r: seq<Id>, places: seq<nat>) {
    && |places| == |r|
    && (forall k :: 0 <= k < |r| ==> FirstAt(rules, returned, valid, places[k], r[k]))
    && (forall k, l :: 0 <= k < l < |r| ==> places[k] < places[l])
  }

  lemma PlacesAfterOther(rules: TextRules, returned: seq<Id>, valid: set<Id>, r: seq<Id>, places: seq<nat>)
    requires returned != [] && FirstPlaces(rules, returned[1..], valid, r, places)
    requires Normalize(rules, returned[0], valid) !in r
    ensures FirstPlaces(rules, returned, valid, r, Shift(places))
  {
    forall k | 0 <= k < |r|
      ensures FirstAt(rules, returned, valid, Shift(places)[k], r[k])
    {
      assert r[k] in r;
      FirstAfterOther(rules, returned, valid, places[k], r[k]);
    }
  }

  lemma PlacesWithFirst(rules: TextRules, returned: seq<Id>, valid: set<Id>, r: seq<Id>, places: seq<nat>)
    requires returned != [] && FirstPlaces(rules, returned, valid, r, places)
    requires forall k :: 0 <= k < |places| ==> places[k] > 0
    ensures FirstPlaces(rules, returned, valid, [Normalize(rules, returned[0], valid)] + r, [0] + places)
  {
    assert FirstAt(rules, returned, valid, 0, Normalize(rules, returned[0], valid));
  }

  /** Each result is what some returned value stands for, in order of first appearance. */
  lemma {:induction false} SanitizedInOrder(rules: TextRules, returned: seq<Id>, valid: set<Id>, seen: set<Id>)
    returns (places: seq<nat>)
    ensures FirstPlaces(rules, returned, valid, SanitizedFrom(rules, returned, valid, seen), places)
  {
    if returned == [] {
      places := [];
    } else {
      var norm := Normalize(rules, returned[0], valid);
      var isNew := norm in valid && norm !in seen;
      var later := if isNew then seen + {norm} else seen;
      var rest := SanitizedFrom(rules, returned[1..], valid, later);
      places := SanitizedInOrder(rules, returned[1..], valid, later);
      SanitizedFromSpec(rules, returned[1..], valid, later);
      PlacesAfterOther(rules, returned, valid, rest, places);
      places := Shift(places);
      if isNew {
        PlacesWithFirst(rules, returned, valid, rest, places);
        places := [0] + places;
      }
    }
  }

  function Shift(s: seq<nat>): (r: seq<nat>)
    ensures |r| == |s| && forall k :: 0 <= k < |s| ==> r[k] == s[k] + 1
  {
    seq(|s|, k requires 0 <= k < |s| => s[k] + 1)
  }
}
