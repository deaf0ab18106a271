/**
 * The region filter `filterByRegions`: walks every configured region, each
 * of its constellations and each of their systems, and emits every tracked
 * system whose id is the system just reached.
 */
module Regions {
  import opened Results
  import opened Seqs
  import opened Universe

  /** A region or constellation the universe endpoints have no entry for. */
  datatype LookupError = UnknownRegion(region: int) | UnknownConstellation(constellation: int)

  /** The system ids listed by constellations `cs`, in listing order. */
  function SystemsOfConstellations(cs: seq<int>, systemsOf: map<int, seq<int>>): Result<seq<int>, LookupError>
  {
    if cs == [] then Success([])
    else if cs[0] !in systemsOf then Failure(UnknownConstellation(cs[0]))
    else
      var rest :- SystemsOfConstellations(cs[1..], systemsOf);
      Success(systemsOf[cs[0]] + rest)
  }

  /**
   * The system ids in the order the nested region, constellation, system
   * traversal reaches them; one entry per path, so a duplicated region is
   * walked twice. The first region or constellation without an entry aborts.
   */
  function Reached(regions: seq<int>, constellationsOf: map<int, seq<int>>, systemsOf: map<int, seq<int>>)
    : Result<seq<int>, LookupError>
  {
    if regions == [] then Success([])
    else if regions[0] !in constellationsOf then Failure(UnknownRegion(regions[0]))
    else
      var here :- SystemsOfConstellations(constellationsOf[regions[0]], systemsOf);
      var rest :- Reached(regions[1..], constellationsOf, systemsOf);
      Success(here + rest)
  }

  /** The tracked systems whose id is `d`, in tracked order: the innermost loop. */
  function Matching(tracked: seq<SolarSystem>, d: int): (r: seq<SolarSystem>)
    ensures forall t :: t in r <==> t in tracked && t.id == d
  {
    if tracked == [] then []
    else (if tracked[0].id == d then [tracked[0]] else []) + Matching(tracked[1..], d)
  }

  /** For each reached id in turn, the tracked systems with that id. */
  function Select(tracked: seq<SolarSystem>, ids: seq<int>): (r: seq<SolarSystem>)
    ensures forall t :: t in r <==> t in tracked && t.id in ids
  {
    if ids == [] then [] else Matching(tracked, ids[0]) + Select(tracked, ids[1..])
  }

  /** `filterByRegions` with the two universe endpoints given as maps. */
  function FilterByRegions(tracked: seq<SolarSystem>, regions: seq<int>,
                           constellationsOf: map<int, seq<int>>, systemsOf: map<int, seq<int>>)
    : Result<seq<SolarSystem>, LookupError>
  {
    var ids :- Reached(regions, constellationsOf, systemsOf);
    Success(Select(tracked, ids))
  }

  /** Every constellation in `cs` has a systems entry. */
  predicate Known(cs: seq<int>, systemsOf: map<int, seq<int>>) {
    forall c :: c in cs ==> c in systemsOf
  }

  /** Every configured region and every constellation it lists has an entry. */
  predicate Resolvable(regions: seq<int>, constellationsOf: map<int, seq<int>>, systemsOf: map<int, seq<int>>) {
    forall r :: r in regions ==> r in constellationsOf && Known(constellationsOf[r], systemsOf)
  }

  /** System `d` is listed by constellation `j` of region `i`. */
  ghost predicate OnPath(regions: seq<int>, constellationsOf: map<int, seq<int>>, systemsOf: map<int, seq<int>>,
                         i: int, j: int, d: int) {
    && 0 <= i < |regions|
    && regions[i] in constellationsOf
    && 0 <= j < |constellationsOf[regions[i]]|
    && constellationsOf[regions[i]][j] in systemsOf
    && d in systemsOf[constellationsOf[regions[i]][j]]
  }

  lemma {:induction false} SystemsOfConstellationsSpec(cs: seq<int>, systemsOf: map<int, seq<int>>)
    ensures SystemsOfConstellations(cs, systemsOf).Success? <==> Known(cs, systemsOf)
    ensures SystemsOfConstellations(cs, systemsOf).Success? ==>
              forall d :: d in SystemsOfConstellations(cs, systemsOf).value <==>
                exists j :: 0 <= j < |cs| && cs[j] in systemsOf && d in systemsOf[cs[j]]
  {
    if cs != [] {
      SystemsOfConstellationsSpec(cs[1..], systemsOf);
      if cs[0] in systemsOf && SystemsOfConstellations(cs[1..], systemsOf).Success? {
        var rest := SystemsOfConstellations(cs[1..], systemsOf).value;
        forall d
          ensures d in systemsOf[cs[0]] + rest <==> exists j :: 0 <= j < |cs| && cs[j] in systemsOf && d in systemsOf[cs[j]]
        {
          if d in rest {
            var j :| 0 <= j < |cs[1..]| && cs[1..][j] in systemsOf && d in systemsOf[cs[1..][j]];
            assert cs[j + 1] == cs[1..][j];
          }
          if exists j :: 0 <= j < |cs| && cs[j] in systemsOf && d in systemsOf[cs[j]] {
            var j :| 0 <= j < |cs| && cs[j] in systemsOf && d in systemsOf[cs[j]];
            if j > 0 {
              assert cs[1..][j - 1] == cs[j];
            }
          }
        }
      }
      if cs[0] in systemsOf && SystemsOfConstellations(cs[1..], systemsOf).Failure? {
        var c :| c in cs[1..] && c !in systemsOf;
        assert c in cs;
      }
    }
  }

  /**
   * The traversal succeeds exactly when every lookup it makes has an answer,
   * and then reaches exactly the systems some constellation of some
   * configured region lists.
   */
  lemma {:induction false} ReachedSpec(regions: seq<int>, constellationsOf: map<int, seq<int>>, systemsOf: map<int, seq<int>>)
    ensures Reached(regions, constellationsOf, systemsOf).Success? <==> Resolvable(regions, constellationsOf, systemsOf)
    ensures Reached(regions, constellationsOf, systemsOf).Success? ==>
              forall d :: d in Reached(regions, constellationsOf, systemsOf).value <==>
                exists i, j :: OnPath(regions, constellationsOf, systemsOf, i, j, d)
  {
    if regions != [] {
      var r0 := regions[0];
      ReachedSpec(regions[1..], constellationsOf, systemsOf);
      if r0 in constellationsOf {
        SystemsOfConstellationsSpec(constellationsOf[r0], systemsOf);
      }
      if Reached(regions, constellationsOf, systemsOf).Success? {
        var here := SystemsOfConstellations(constellationsOf[r0], systemsOf).value;
        var rest := Reached(regions[1..], constellationsOf, systemsOf).value;
        forall d
          ensures d in here + rest <==> exists i, j :: OnPath(regions, constellationsOf, systemsOf, i, j, d)
        {
          if d in here {
            var j :| 0 <= j < |constellationsOf[r0]| && constellationsOf[r0][j] in systemsOf && d in systemsOf[constellationsOf[r0][j]];
            assert OnPath(regions, constellationsOf, systemsOf, 0, j, d);
          }
          if d in rest {
            var i, j :| OnPath(regions[1..], constellationsOf, systemsOf, i, j, d);
            assert OnPath(regions, constellationsOf, systemsOf, i + 1, j, d);
          }
          if exists i, j :: OnPath(regions, constellationsOf, systemsOf, i, j, d) {
            var i, j :| OnPath(regions, constellationsOf, systemsOf, i, j, d);
            if i > 0 {
              assert OnPath(regions[1..], constellationsOf, systemsOf, i - 1, j, d);
            }
          }
        }
      } else if r0 in constellationsOf && Known(constellationsOf[r0], systemsOf) {
        var r :| r in regions[1..] && !(r in constellationsOf && Known(constellationsOf[r], systemsOf));
        assert r in regions;
      }
    }
  }

  /** The members of `ids` that are also in `known`, in order. */
  function KeepKnown(ids: seq<int>, known: seq<int>): (r: seq<int>)
    ensures forall d :: d in r <==> d in ids && d in known
  {
    if ids == [] then []
    else (if ids[0] in known then [ids[0]] else []) + KeepKnown(ids[1..], known)
  }

  lemma {:induction false} MatchingCount(tracked: seq<SolarSystem>, d: int, t: SolarSystem)
    ensures multiset(Matching(tracked, d))[t] == if t.id == d then multiset(tracked)[t] else 0
  {
    if tracked != [] {
      MatchingCount(tracked[1..], d, t);
      assert tracked == [tracked[0]] + tracked[1..];
    }
  }

  /**
   * A tracked system is emitted once for every path that reaches its id
   * (and once more for every further copy of it in the tracked list).
   */
  lemma {:induction false} SelectCount(tracked: seq<SolarSystem>, ids: seq<int>, t: SolarSystem)
    ensures multiset(Select(tracked, ids))[t] == multiset(tracked)[t] * multiset(ids)[t.id]
  {
    var n := multiset(tracked)[t];
    if ids == [] {
      assert multiset(ids)[t.id] == 0;
      assert n * 0 == 0;
    } else {
      var head, tail := Matching(tracked, ids[0]), Select(tracked, ids[1..]);
      var h, rest := multiset(head)[t], multiset(ids[1..])[t.id];
      var here := ids[0] == t.id;
      assert h == if here then n else 0 by {
        MatchingCount(tracked, ids[0], t);
      }
      assert multiset(Select(tracked, ids))[t] == h + n * rest by {
        SelectCount(tracked, ids[1..], t);
        assert Select(tracked, ids) == head + tail;
      }
      assert multiset(ids)[t.id] == (if here then 1 else 0) + rest by {
        assert ids == [ids[0]] + ids[1..];
      }
      CountStep(n, h, rest, multiset(ids)[t.id], here);
    }
  }

  /** The count of the head's copies plus `n` per later path is `n` per path. */
  lemma CountStep(n: int, h: int, rest: int, total: int, here: bool)
    requires h == if here then n else 0
    requires total == (if here then 1 else 0) + rest
    ensures h + n * rest == n * total
  {
  }

  /**
   * `filterByRegions` returns a list exactly when every configured region
   * and each of its constellations resolves, and then keeps precisely the
   * tracked systems lying on some region-constellation path.
   */
  lemma FilterByRegionsSpec(tracked: seq<SolarSystem>, regions: seq<int>,
                            constellationsOf: map<int, seq<int>>, systemsOf: map<int, seq<int>>)
    ensures FilterByRegions(tracked, regions, constellationsOf, systemsOf).Success?
            <==> Resolvable(regions, constellationsOf, systemsOf)
    ensures FilterByRegions(tracked, regions, constellationsOf, systemsOf).Success? ==>
              forall t :: t in FilterByRegions(tracked, regions, constellationsOf, systemsOf).value <==>
                t in tracked && exists i, j :: OnPath(regions, constellationsOf, systemsOf, i, j, t.id)
  {
    var reached := Reached(regions, constellationsOf, systemsOf);
    assert reached.Success? <==> Resolvable(regions, constellationsOf, systemsOf) by {
      ReachedSpec(regions, constellationsOf, systemsOf);
    }
    if reached.Success? {
      var ids := reached.value;
      var kept := Select(tracked, ids);
      assert FilterByRegions(tracked, regions, constellationsOf, systemsOf) == Success(kept);
      forall t
        ensures t in kept <==> t in tracked && exists i, j :: OnPath(regions, constellationsOf, systemsOf, i, j, t.id)
      {
        assert t.id in ids <==> exists i, j :: OnPath(regions, constellationsOf, systemsOf, i, j, t.id) by {
          ReachedSpec(regions, constellationsOf, systemsOf);
        }
      }
    }
  }

  /** Each tracked copy of `t` appears once per path that reaches its id. */
  lemma FilterByRegionsCount(tracked: seq<SolarSystem>, regions: seq<int>,
                             constellationsOf: map<int, seq<int>>, systemsOf: map<int, seq<int>>, t: SolarSystem)
    requires FilterByRegions(tracked, regions, constellationsOf, systemsOf).Success?
    ensures multiset(FilterByRegions(tracked, regions, constellationsOf, systemsOf).value)[t]
              == multiset(tracked)[t] * multiset(Reached(regions, constellationsOf, systemsOf).value)[t.id]
  {
    var ids := Reached(regions, constellationsOf, systemsOf).value;
    assert FilterByRegions(tracked, regions, constellationsOf, systemsOf) == Success(Select(tracked, ids));
    SelectCount(tracked, ids, t);
  }

  lemma {:induction false} MatchingIds(tracked: seq<SolarSystem>, d: int)
    requires Distinct(Ids(tracked))
    ensures Ids(Matching(tracked, d)) == if d in Ids(tracked) then [d] else []
  {
    if tracked != [] {
      assert Ids(tracked) == [tracked[0].id] + Ids(tracked[1..]);
      MatchingIds(tracked[1..], d);
      DistinctTail(Ids(tracked));
    }
  }

  lemma {:induction false} IdsConcat(a: seq<SolarSystem>, b: seq<SolarSystem>)
    ensures Ids(a + b) == Ids(a) + Ids(b)
  {
    if a == [] {
      assert a + b == b;
    } else {
      assert (a + b)[1..] == a[1..] + b;
      IdsConcat(a[1..], b);
    }
  }

  /**
   * With distinct tracked ids, the output lists the reached ids that are
   * tracked, in discovery order and with one entry per path: the order is
   * the traversal's, not the tracked list's.
   */
  lemma {:induction false} SelectOrder(tracked: seq<SolarSystem>, ids: seq<int>)
    requires Distinct(Ids(tracked))
    ensures Ids(Select(tracked, ids)) == KeepKnown(ids, Ids(tracked))
  {
    if ids != [] {
      SelectOrder(tracked, ids[1..]);
      MatchingIds(tracked, ids[0]);
      IdsConcat(Matching(tracked, ids[0]), Select(tracked, ids[1..]));
    }
  }

  lemma {:induction false} KeepKnownDistinct(ids: seq<int>, known: seq<int>)
    requires Distinct(ids)
    ensures Distinct(KeepKnown(ids, known))
  {
    if ids != [] {
      KeepKnownDistinct(ids[1..], known);
      DistinctTail(ids);
    }
  }

  lemma DistinctTail(s: seq<int>)
    requires Distinct(s) && s != []
    ensures s[0] !in s[1..] && Distinct(s[1..])
  {
  }

  lemma MatchingNone(s: seq<SolarSystem>, d: int)
    requires forall u :: u in s ==> u.id != d
    ensures Matching(s, d) == []
  {
    if Matching(s, d) != [] {
      assert Matching(s, d)[0] in Matching(s, d);
    }
  }

  /** In a list with distinct ids, the system with id `d` is matched alone. */
  lemma {:induction false} MatchingUnique(s: seq<SolarSystem>, t: SolarSystem)
    requires Distinct(Ids(s)) && t in s
    ensures Matching(s, t.id) == [t]
  {
    assert Ids(s) == [s[0].id] + Ids(s[1..]);
    DistinctTail(Ids(s));
    if s[0] == t {
      forall u | u in s[1..]
        ensures u.id != t.id
      {
        var k :| 0 <= k < |s[1..]| && s[1..][k] == u;
        assert Ids(s[1..])[k] == u.id;
      }
      MatchingNone(s[1..], t.id);
    } else {
      MatchingUnique(s[1..], t);
      var k :| 0 <= k < |s[1..]| && s[1..][k] == t;
      assert Ids(s[1..])[k] == t.id;
    }
  }

  lemma {:induction false} SelectCongruent(a: seq<SolarSystem>, b: seq<SolarSystem>, ids: seq<int>)
    requires forall d :: d in ids ==> Matching(a, d) == Matching(b, d)
    ensures Select(a, ids) == Select(b, ids)
  {
    if ids != [] {
      SelectCongruent(a, b, ids[1..]);
    }
  }

  /**
   * Filtering an already filtered list again returns it unchanged, provided
   * the tracked ids are distinct and no system is reached twice.
   */
  lemma FilterByRegionsIdempotent(tracked: seq<SolarSystem>, regions: seq<int>,
                                  constellationsOf: map<int, seq<int>>, systemsOf: map<int, seq<int>>)
    requires Distinct(Ids(tracked))
    requires Reached(regions, constellationsOf, systemsOf).Success?
    requires Distinct(Reached(regions, constellationsOf, systemsOf).value)
    ensures FilterByRegions(tracked, regions, constellationsOf, systemsOf).Success?
    ensures var once := FilterByRegions(tracked, regions, constellationsOf, systemsOf).value;
            FilterByRegions(once, regions, constellationsOf, systemsOf) == Success(once)
  {
    var ids := Reached(regions, constellationsOf, systemsOf).value;
    var once := Select(tracked, ids);
    SelectOrder(tracked, ids);
    KeepKnownDistinct(ids, Ids(tracked));
    forall d | d in ids
      ensures Matching(once, d) == Matching(tracked, d)
    {
      MatchingAgain(tracked, ids, d);
    }
    SelectCongruent(once, tracked, ids);
  }

  lemma MatchingAgain(tracked: seq<SolarSystem>, ids: seq<int>, d: int)
    requires Distinct(Ids(tracked)) && Distinct(Ids(Select(tracked, ids))) && d in ids
    ensures Matching(Select(tracked, ids), d) == Matching(tracked, d)
  {
    var once := Select(tracked, ids);
    if t :| t in tracked && t.id == d {
      MatchingUnique(tracked, t);
      MatchingUnique(once, t);
    } else {
      MatchingNone(tracked, d);
      MatchingNone(once, d);
    }
  }

  /**
   * Without the distinctness condition idempotence fails: a region listed
   * twice emits its tracked system twice, and filtering again emits it four times.
   */
  lemma DuplicatedRegionNotIdempotent()
    ensures var tracked := [SolarSystem(1, "A")];
            var once := FilterByRegions(tracked, [10, 10], map[10 := [20]], map[20 := [1]]);
            && once == Success([SolarSystem(1, "A"), SolarSystem(1, "A")])
            && FilterByRegions(once.value, [10, 10], map[10 := [20]], map[20 := [1]]).value
               == [SolarSystem(1, "A"), SolarSystem(1, "A"), SolarSystem(1, "A"), SolarSystem(1, "A")]
  {
    var cs, ss := map[10 := [20]], map[20 := [1]];
    assert [20][1..] == [];
    assert SystemsOfConstellations([], ss) == Success([]);
    assert SystemsOfConstellations([20], ss).value == [1];
    assert [10, 10][1..] == [10];
    assert [10][1..] == [];
    assert Reached([], cs, ss) == Success([]);
    assert Reached([10], cs, ss).value == [1];
    assert Reached([10, 10], cs, ss).value == [1, 1];
    var a := SolarSystem(1, "A");
    assert [a][1..] == [];
    assert [a, a][1..] == [a];
    assert [1, 1][1..] == [1];
    assert [1][1..] == [];
    assert Matching([a], 1) == [a];
    assert Matching([a, a], 1) == [a, a];
    assert Select([a], [1]) == [a];
    assert Select([a], [1, 1]) == [a, a];
    assert Select([a, a], [1]) == [a, a];
    assert Select([a, a], [1, 1]) == [a, a, a, a];
  }
}
