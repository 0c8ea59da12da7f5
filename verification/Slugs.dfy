/** The unique-slug search and the insertion loop of
    alembic/versions/f4695a7728a8_custom_mcp_providers.py. */
module Slugs {
  import Decimal

  datatype Integration = Integration(id: string, owner: string, provider: string)

  datatype Row = Row(owner: string, slug: string, oauthId: string)

  /** The `k`-th candidate: the base slug, then the base with a running suffix. */
  function Candidate(base: string, k: nat): string {
    if k == 0 then base else base + "-" + Decimal.Render(k)
  }

  lemma CandidatesDistinct(base: string, j: nat, k: nat)
    ensures Candidate(base, j) == Candidate(base, k) ==> j == k
  {
    var a, b := Candidate(base, j), Candidate(base, k);
    if a == b && 0 < j && 0 < k {
      assert a[|base| + 1..] == Decimal.Render(j) && b[|base| + 1..] == Decimal.Render(k);
      Decimal.RenderInjective(j, k);
    }
  }

  /** The first `k` candidates are `k` different strings, so they do not fit into a
      smaller set. */
  lemma {:induction false} CandidatesPigeonhole(base: string, k: nat, taken: set<string>)
    requires forall j: nat :: j < k ==> Candidate(base, j) in taken
    ensures k <= |taken|
    decreases k
  {
    if k > 0 {
      var last := Candidate(base, k - 1);
      forall j: nat | j < k - 1
        ensures Candidate(base, j) in taken - {last}
      {
        CandidatesDistinct(base, j, k - 1);
      }
      CandidatesPigeonhole(base, k - 1, taken - {last});
    }
  }

  ghost function Taken(rows: seq<Row>, owner: string): set<string> {
    set row | row in rows && row.owner == owner :: row.slug
  }

  /** The first candidate that the owner does not use yet. */
  ghost predicate FirstFree(taken: set<string>, base: string, slug: string) {
    exists k: nat :: slug == Candidate(base, k) && slug !in taken
                     && forall j: nat :: j < k ==> Candidate(base, j) in taken
  }

  lemma FirstFreeUnique(taken: set<string>, base: string, a: string, b: string)
    requires FirstFree(taken, base, a) && FirstFree(taken, base, b)
    ensures a == b
  {
    var j: nat :| a == Candidate(base, j) && forall i: nat :: i < j ==> Candidate(base, i) in taken;
    var k: nat :| b == Candidate(base, k) && forall i: nat :: i < k ==> Candidate(base, i) in taken;
    assert j >= k && k >= j;
  }

  predicate UsedBy(rows: seq<Row>, owner: string, slug: string) {
    exists i :: 0 <= i < |rows| && rows[i].owner == owner && rows[i].slug == slug
  }

  class IntegrationTable {
    var rows: seq<Row>

    constructor ()
      ensures rows == []
    {
      rows := [];
    }

    /** Probes candidate after candidate; at most one probe more than the owner has
        slugs. */
    method GenerateUniqueSlug(owner: string, base: string) returns (slug: string, probes: nat)
      ensures FirstFree(Taken(rows, owner), base, slug)
      ensures 1 <= probes <= |Taken(rows, owner)| + 1
      ensures slug == Candidate(base, probes - 1)
      ensures slug !in Taken(rows, owner)
      ensures probes == 1 ==> slug == base
      ensures probes > 1 ==> slug == base + "-" + Decimal.Render(probes - 1) && base in Taken(rows, owner)
      ensures forall k: nat :: 0 < k < probes - 1 ==> base + "-" + Decimal.Render(k) in Taken(rows, owner)
    {
      slug := base;
      var suffix := 1;
      ghost var taken := Taken(rows, owner);
      while UsedBy(rows, owner, slug)
        invariant suffix >= 1 && slug == Candidate(base, suffix - 1)
        invariant forall j: nat :: j < suffix - 1 ==> Candidate(base, j) in taken
        invariant suffix - 1 <= |taken|
        decreases |taken| - suffix + 1
      {
        slug := base + "-" + Decimal.Render(suffix);
        suffix := suffix + 1;
        CandidatesPigeonhole(base, suffix - 1, taken);
      }
      assert slug !in taken;
      probes := suffix;
      assert probes > 1 ==> Candidate(base, 0) in taken;
      forall k: nat | 0 < k < probes - 1
        ensures base + "-" + Decimal.Render(k) in taken
      {
        assert Candidate(base, k) in taken;
      }
    }

    /** Inserts one row per integration with a known provider. */
    method InsertAll(integrations: seq<Integration>, names: map<string, string>, slugify: string -> string)
      requires Unique(rows)
      modifies this
      ensures Unique(rows)
      ensures Migrated(old(rows), integrations, names, slugify, rows)
    {
      for i := 0 to |integrations|
        invariant Unique(rows)
        invariant Migrated(old(rows), integrations[..i], names, slugify, rows)
      {
        var it := integrations[i];
        assert integrations[..i + 1][..i] == integrations[..i];
        if it.provider !in names {
          continue;
        }
        var slug, probes := GenerateUniqueSlug(it.owner, slugify(names[it.provider]));
        ghost var before := rows;
        rows := rows + [Row(it.owner, slug, it.id)];
        assert rows[..|rows| - 1] == before;
        KeepsUnique(before, rows[|rows| - 1]);
      }
      assert integrations[..|integrations|] == integrations;
    }
  }

  /** The unique constraint on owner and slug. */
  ghost predicate Unique(rows: seq<Row>) {
    forall i, j :: 0 <= i < j < |rows| ==> rows[i].owner != rows[j].owner || rows[i].slug != rows[j].slug
  }

  lemma KeepsUnique(rows: seq<Row>, row: Row)
    requires Unique(rows) && row.slug !in Taken(rows, row.owner)
    ensures Unique(rows + [row])
  {
    forall i | 0 <= i < |rows|
      ensures rows[i].owner != row.owner || rows[i].slug != row.slug
    {
      assert rows[i] in rows;
    }
  }

  /** `after` holds `before` and, for every integration with a known provider, in order,
      one row with the slug that was the first free one at its turn. */
  ghost predicate Migrated(before: seq<Row>, integrations: seq<Integration>, names: map<string, string>,
                           slugify: string -> string, after: seq<Row>)
    decreases |integrations|
  {
    if integrations == [] then after == before
    else
      var it, rest := integrations[|integrations| - 1], integrations[..|integrations| - 1];
      if it.provider !in names then Migrated(before, rest, names, slugify, after)
      else
        && after != []
        && Migrated(before, rest, names, slugify, after[..|after| - 1])
        && var row := after[|after| - 1];
        && row.owner == it.owner && row.oauthId == it.id
        && FirstFree(Taken(after[..|after| - 1], it.owner), slugify(names[it.provider]), row.slug)
  }

  /** Row `row` was inserted for `it` after the rows `earlier`. */
  ghost predicate InsertedFor(it: Integration, names: map<string, string>, slugify: string -> string,
                              earlier: seq<Row>, row: Row)
  {
    && it.provider in names && row.owner == it.owner && row.oauthId == it.id
    && var base := slugify(names[it.provider]);
    && (row.slug == base || exists k: nat :: k > 0 && row.slug == base + "-" + Decimal.Render(k))
    && forall other :: other in earlier && other.owner == row.owner ==> other.slug != row.slug
  }

  ghost predicate InsertedAt(integrations: seq<Integration>, names: map<string, string>, slugify: string -> string,
                             before: seq<Row>, after: seq<Row>, places: seq<nat>, k: nat)
  {
    && k < |places| && places[k] < |integrations| && |before| + k < |after|
    && InsertedFor(integrations[places[k]], names, slugify, after[..|before| + k], after[|before| + k])
  }

  /** Row by row: the old rows stay in front, and the integrations with a known provider
      follow in their order, one row each. */
  lemma {:induction false} MigratedRows(before: seq<Row>, integrations: seq<Integration>, names: map<string, string>,
                                        slugify: string -> string, after: seq<Row>)
    returns (places: seq<nat>)
    requires Migrated(before, integrations, names, slugify, after)
    ensures before <= after && |after| == |before| + |places|
    ensures forall k :: 0 <= k < |places| ==> places[k] < |integrations|
    ensures forall k, l :: 0 <= k < l < |places| ==> places[k] < places[l]
    ensures forall i :: 0 <= i < |integrations| ==> (i in places <==> integrations[i].provider in names)
    ensures forall k :: 0 <= k < |places| ==> InsertedAt(integrations, names, slugify, before, after, places, k)
    decreases |integrations|
  {
    if integrations == [] {
      places := [];
    } else {
      var n := |integrations| - 1;
      var it, rest := integrations[n], integrations[..n];
      if it.provider !in names {
        places := MigratedRows(before, rest, names, slugify, after);
        forall k | 0 <= k < |places|
          ensures InsertedAt(integrations, names, slugify, before, after, places, k)
        {
          assert InsertedAt(rest, names, slugify, before, after, places, k);
        }
      } else {
        var earlier, row := after[..|after| - 1], after[|after| - 1];
        var first := MigratedRows(before, rest, names, slugify, earlier);
        places := first + [n];
        assert before <= after;
        forall k | 0 <= k < |places|
          ensures InsertedAt(integrations, names, slugify, before, after, places, k)
        {
          if k < |first| {
            assert InsertedAt(rest, names, slugify, before, earlier, first, k);
            assert after[..|before| + k] == earlier[..|before| + k];
          } else {
            LastInserted(it, names, slugify, earlier, row);
          }
        }
      }
    }
  }

  lemma LastInserted(it: Integration, names: map<string, string>, slugify: string -> string,
                     earlier: seq<Row>, row: Row)
    requires it.provider in names && row.owner == it.owner && row.oauthId == it.id
    requires FirstFree(Taken(earlier, it.owner), slugify(names[it.provider]), row.slug)
    ensures InsertedFor(it, names, slugify, earlier, row)
  {
  }

  /** The migrated table is determined by the input. */
  lemma {:induction false} MigratedUnique(before: seq<Row>, integrations: seq<Integration>, names: map<string, string>,
                                          slugify: string -> string, a: seq<Row>, b: seq<Row>)
    requires Migrated(before, integrations, names, slugify, a) && Migrated(before, integrations, names, slugify, b)
    ensures a == b
    decreases |integrations|
  {
    if integrations != [] {
      var it, rest := integrations[|integrations| - 1], integrations[..|integrations| - 1];
      if it.provider !in names {
        MigratedUnique(before, rest, names, slugify, a, b);
      } else {
        MigratedUnique(before, rest, names, slugify, a[..|a| - 1], b[..|b| - 1]);
        FirstFreeUnique(Taken(a[..|a| - 1], it.owner), slugify(names[it.provider]), a[|a| - 1].slug, b[|b| - 1].slug);
        assert a == a[..|a| - 1] + [a[|a| - 1]] && b == b[..|b| - 1] + [b[|b| - 1]];
      }
    }
  }

  /** The first `n` candidates. */
  ghost predicate AmongFirst(base: string, n: nat, slug: string) {
    exists k: nat :: k < n && slug == Candidate(base, k)
  }

  lemma NextIsNotAmongFirst(base: string, n: nat)
    ensures !AmongFirst(base, n, Candidate(base, n))
  {
    forall k: nat | k < n
      ensures Candidate(base, k) != Candidate(base, n)
    {
      CandidatesDistinct(base, k, n);
    }
  }

  /** The slugs an owner gets for one base are numbered without gaps: if the owner's
      slugs are the first `n` candidates, the search gives the next one. */
  lemma NumberedWithoutGaps(base: string, n: nat, taken: set<string>, slug: string)
    requires forall s :: s in taken <==> AmongFirst(base, n, s)
    requires FirstFree(taken, base, slug)
    ensures slug == Candidate(base, n)
  {
    NextIsNotAmongFirst(base, n);
    assert forall j: nat :: j < n ==> AmongFirst(base, n, Candidate(base, j));
    assert FirstFree(taken, base, Candidate(base, n));
    FirstFreeUnique(taken, base, slug, Candidate(base, n));
  }
}
