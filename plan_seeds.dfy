/**
 * Seeding the plan table by name-keyed upserts.
 *
 * `POST /investment-plans/seed` (src/routes/investmentPlans.js) upserts six plans and, when
 * a plan of that name exists, overwrites its minimum, ROI and duration with the listed
 * ones (its description is not in the update and is left as it was). The seed script
 * (prisma/seed.js) upserts three plans with an empty update, so an existing plan is kept
 * as it is and only missing ones are created.
 */
module PlanSeeds {
  import opened Domain

  /** One entry of a seed list; the route's entries carry no description. */
  datatype Seed = Seed(name: string, description: Option<string>, minAmount: real, roi: real,
                       duration: int)

  /** The plans of the seed route. */
  const RouteSeeds: seq<Seed> := [
    Seed("Basic", None, 50.0, 20.0, 7),
    Seed("Starter", None, 100.0, 25.0, 7),
    Seed("Master", None, 200.0, 30.0, 14),
    Seed("Elite", None, 270.0, 40.0, 14),
    Seed("Pro", None, 350.0, 50.0, 21),
    Seed("Premium", None, 500.0, 65.0, 30)
  ]

  /** The plans of the seed script. */
  const ScriptSeeds: seq<Seed> := [
    Seed("Starter Plan", Some("Perfect for beginners"), 100.0, 10.0, 30),
    Seed("Pro Plan", Some("For consistent investors"), 500.0, 15.0, 60),
    Seed("Elite Plan", Some("High ROI for big investors"), 1000.0, 20.0, 90)
  ]

  function Names(seeds: seq<Seed>): (names: seq<string>)
    ensures |names| == |seeds|
  {
    if seeds == [] then [] else [seeds[0].name] + Names(seeds[1..])
  }

  /** Both lists name each plan once, and every listed number is positive. */
  lemma SeedListsWellFormed()
    ensures Distinct(Names(RouteSeeds)) && Distinct(Names(ScriptSeeds))
    ensures forall i | 0 <= i < |RouteSeeds| ::
      RouteSeeds[i].minAmount > 0.0 && RouteSeeds[i].roi > 0.0 && RouteSeeds[i].duration > 0
    ensures forall i | 0 <= i < |ScriptSeeds| ::
      ScriptSeeds[i].minAmount > 0.0 && ScriptSeeds[i].roi > 0.0 && ScriptSeeds[i].duration > 0
  {
  }

  /** Some plan carries `name`. */
  predicate Named(plans: map<int, Plan>, name: string)
  {
    exists k | k in plans :: plans[k].name == name
  }

  /** The key of the plan named `name`: the `where: { name }` of an upsert. */
  function KeyOf(plans: map<int, Plan>, name: string): (k: int)
    requires NamesUnique(plans) && Named(plans, name)
    ensures k in plans && plans[k].name == name
    ensures forall j | j in plans && plans[j].name == name :: j == k
  {
    var k :| k in plans && plans[k].name == name; k
  }

  /** A plan named like `seed` already holds everything the overwriting upsert would write. */
  ghost predicate Current(plans: map<int, Plan>, seed: Seed)
  {
    exists k | k in plans :: plans[k].name == seed.name && plans[k].minAmount == seed.minAmount
                             && plans[k].roi == seed.roi && plans[k].duration == seed.duration
                             && (seed.description.Some? ==> plans[k].description == seed.description)
  }

  /** A plan created from `seed` exactly as listed. */
  ghost predicate Created(plans: map<int, Plan>, seed: Seed)
  {
    exists k | k in plans :: plans[k].name == seed.name && plans[k].description == seed.description
                             && plans[k].minAmount == seed.minAmount && plans[k].roi == seed.roi
                             && plans[k].duration == seed.duration
  }

  /** The `create` branch of an upsert: a new plan with the seed's fields. */
  function CreateFrom(s: State, seed: Seed, now: int): (t: State)
    requires Valid(s) && !Named(s.plans, seed.name)
    ensures Valid(t) && s.nextPlan !in s.plans
    ensures t.plans == s.plans[s.nextPlan := Plan(s.nextPlan, seed.name, seed.description,
                                                  seed.minAmount, seed.roi, seed.duration, now)]
    ensures t == s.(plans := t.plans, nextPlan := s.nextPlan + 1)
  {
    var p := Plan(s.nextPlan, seed.name, seed.description, seed.minAmount, seed.roi, seed.duration, now);
    s.(plans := s.plans[p.id := p], nextPlan := s.nextPlan + 1)
  }

  /** The `update` branch of the seed route's upsert on the plan `k`. */
  function Overwrite(s: State, k: int, seed: Seed): (t: State)
    requires Valid(s) && k in s.plans && s.plans[k].name == seed.name
    ensures Valid(t)
    ensures t.plans == s.plans[k := s.plans[k].(minAmount := seed.minAmount, roi := seed.roi,
                                                duration := seed.duration,
                                                description := if seed.description.Some? then seed.description
                                                               else s.plans[k].description)]
    ensures t == s.(plans := t.plans)
  {
    var p := s.plans[k].(minAmount := seed.minAmount, roi := seed.roi, duration := seed.duration,
                         description := if seed.description.Some? then seed.description
                                        else s.plans[k].description);
    s.(plans := s.plans[k := p])
  }

  /** One upsert of the seed route: `update: plan, create: plan`. */
  function UpsertOverwrite(s: State, seed: Seed, now: int): (t: State)
    requires Valid(s)
    ensures Valid(t)
    ensures t == s.(plans := t.plans, nextPlan := t.nextPlan)
    ensures Current(t.plans, seed)
    ensures s.plans.Keys <= t.plans.Keys
    ensures forall k | k in s.plans :: t.plans[k].name == s.plans[k].name
    ensures forall k | k in s.plans && s.plans[k].name != seed.name :: t.plans[k] == s.plans[k]
    ensures forall k | k in t.plans && k !in s.plans :: t.plans[k].name == seed.name
    ensures Named(s.plans, seed.name) ==> t == Overwrite(s, KeyOf(s.plans, seed.name), seed)
    ensures !Named(s.plans, seed.name) ==> t == CreateFrom(s, seed, now)
  {
    if Named(s.plans, seed.name) then
      var k := KeyOf(s.plans, seed.name);
      var t := Overwrite(s, k, seed);
      assert t.plans[k].name == seed.name;
      t
    else
      var t := CreateFrom(s, seed, now);
      assert t.plans[s.nextPlan].name == seed.name;
      t
  }

  /** The seed route's loop, in list order. */
  function OverwriteAll(s: State, seeds: seq<Seed>, now: int): (t: State)
    requires Valid(s)
    ensures Valid(t)
    ensures t == s.(plans := t.plans, nextPlan := t.nextPlan)
    ensures s.plans.Keys <= t.plans.Keys
    ensures forall k | k in s.plans :: t.plans[k].name == s.plans[k].name
    ensures forall k | k in s.plans && s.plans[k].name !in Names(seeds) :: t.plans[k] == s.plans[k]
    ensures forall k | k in t.plans && k !in s.plans :: t.plans[k].name in Names(seeds)
    decreases |seeds|
  {
    if seeds == [] then s
    else
      assert Names(seeds) == [seeds[0].name] + Names(seeds[1..]);
      var s1 := UpsertOverwrite(s, seeds[0], now);
      var t := OverwriteAll(s1, seeds[1..], now);
      assert forall k | k in t.plans && k !in s.plans :: t.plans[k].name in Names(seeds) by {
        forall k | k in t.plans && k !in s.plans
          ensures t.plans[k].name in Names(seeds)
        {
          if k in s1.plans {
            assert t.plans[k].name == s1.plans[k].name == seeds[0].name;
          }
        }
      }
      t
  }

  /** After the loop every listed plan exists with exactly the listed numbers. */
  lemma OverwriteAllFits(s: State, seeds: seq<Seed>, now: int)
    requires Valid(s) && Distinct(Names(seeds))
    ensures forall i | 0 <= i < |seeds| :: Current(OverwriteAll(s, seeds, now).plans, seeds[i])
  {
    forall i | 0 <= i < |seeds|
      ensures Current(OverwriteAll(s, seeds, now).plans, seeds[i])
    {
      OverwriteAllFitsAt(s, seeds, now, i);
    }
  }

  /** The plan of the `i`-th entry holds that entry's numbers once the loop is over. */
  lemma {:induction false} OverwriteAllFitsAt(s: State, seeds: seq<Seed>, now: int, i: nat)
    requires Valid(s) && Distinct(Names(seeds)) && i < |seeds|
    ensures Current(OverwriteAll(s, seeds, now).plans, seeds[i])
    decreases i
  {
    var s1 := UpsertOverwrite(s, seeds[0], now);
    DistinctTail(seeds);
    if i == 0 {
      LaterSeedsKeepFirst(s1, seeds, now);
    } else {
      OverwriteAllFitsAt(s1, seeds[1..], now, i - 1);
    }
  }

  /** The later upserts of a list without repeated names leave the first one's plan alone. */
  lemma LaterSeedsKeepFirst(s1: State, seeds: seq<Seed>, now: int)
    requires Valid(s1) && seeds != [] && Distinct(Names(seeds)) && Current(s1.plans, seeds[0])
    ensures Current(OverwriteAll(s1, seeds[1..], now).plans, seeds[0])
  {
    var t := OverwriteAll(s1, seeds[1..], now);
    var k :| k in s1.plans && s1.plans[k].name == seeds[0].name && s1.plans[k].minAmount == seeds[0].minAmount
             && s1.plans[k].roi == seeds[0].roi && s1.plans[k].duration == seeds[0].duration
             && (seeds[0].description.Some? ==> s1.plans[k].description == seeds[0].description);
    DistinctTail(seeds);
    assert s1.plans[k].name !in Names(seeds[1..]);
    assert k in t.plans && t.plans[k] == s1.plans[k];
  }

  /** Dropping the first entry of a list without repeated names leaves one without them. */
  lemma DistinctTail(seeds: seq<Seed>)
    requires seeds != [] && Distinct(Names(seeds))
    ensures Distinct(Names(seeds[1..])) && seeds[0].name !in Names(seeds[1..])
  {
    assert Names(seeds) == [seeds[0].name] + Names(seeds[1..]);
    assert forall i | 0 <= i < |seeds| - 1 :: Names(seeds[1..])[i] == Names(seeds)[i + 1];
    forall j | 0 <= j < |seeds| - 1
      ensures Names(seeds[1..])[j] != seeds[0].name
    {
      assert Names(seeds[1..])[j] == Names(seeds)[j + 1];
      assert Names(seeds)[0] != Names(seeds)[j + 1];
    }
  }

  /** An upsert whose plan already holds the listed values changes nothing. */
  lemma UpsertOverwriteNoop(s: State, seed: Seed, now: int)
    requires Valid(s) && Current(s.plans, seed)
    ensures UpsertOverwrite(s, seed, now) == s
  {
    var k := KeyOf(s.plans, seed.name);
    assert s.plans[k := UpsertOverwrite(s, seed, now).plans[k]] == s.plans;
  }

  lemma {:induction false} OverwriteAllNoop(s: State, seeds: seq<Seed>, now: int)
    requires Valid(s) && forall i | 0 <= i < |seeds| :: Current(s.plans, seeds[i])
    ensures OverwriteAll(s, seeds, now) == s
    decreases |seeds|
  {
    if seeds != [] {
      UpsertOverwriteNoop(s, seeds[0], now);
      assert forall i | 0 <= i < |seeds[1..]| :: seeds[1..][i] == seeds[i + 1];
      OverwriteAllNoop(s, seeds[1..], now);
    }
  }

  /** After the seed route each of the six plans exists with exactly its listed numbers. */
  lemma RouteSeedFits(s: State, now: int)
    requires Valid(s)
    ensures forall i | 0 <= i < |RouteSeeds| :: Current(OverwriteAll(s, RouteSeeds, now).plans, RouteSeeds[i])
  {
    SeedListsWellFormed();
    OverwriteAllFits(s, RouteSeeds, now);
  }

  /** Running the seed route twice leaves the store as running it once. */
  lemma RouteSeedIdempotent(s: State, now: int, later: int)
    requires Valid(s)
    ensures var once := OverwriteAll(s, RouteSeeds, now);
            OverwriteAll(once, RouteSeeds, later) == once
  {
    SeedListsWellFormed();
    OverwriteAllFits(s, RouteSeeds, now);
    OverwriteAllNoop(OverwriteAll(s, RouteSeeds, now), RouteSeeds, later);
  }

  /** One upsert of the seed script: `update: {}`, so an existing plan is kept as it is. */
  function UpsertKeep(s: State, seed: Seed, now: int): (t: State)
    requires Valid(s)
    ensures Valid(t)
    ensures Named(s.plans, seed.name) ==> t == s
    ensures !Named(s.plans, seed.name) ==> t == CreateFrom(s, seed, now)
  {
    if Named(s.plans, seed.name) then s else CreateFrom(s, seed, now)
  }

  /** The seed script's loop, in list order. */
  function KeepAll(s: State, seeds: seq<Seed>, now: int): (t: State)
    requires Valid(s)
    ensures Valid(t)
    ensures t == s.(plans := t.plans, nextPlan := t.nextPlan)
    ensures s.plans.Keys <= t.plans.Keys
    ensures forall k | k in s.plans :: t.plans[k] == s.plans[k]
    ensures forall k | k in t.plans && k !in s.plans :: t.plans[k].name in Names(seeds)
    decreases |seeds|
  {
    if seeds == [] then s
    else
      assert Names(seeds) == [seeds[0].name] + Names(seeds[1..]);
      var s1 := UpsertKeep(s, seeds[0], now);
      var t := KeepAll(s1, seeds[1..], now);
      assert forall k | k in t.plans && k !in s.plans :: t.plans[k].name in Names(seeds) by {
        forall k | k in t.plans && k !in s.plans
          ensures t.plans[k].name in Names(seeds)
        {
          if k in s1.plans {
            assert t.plans[k] == s1.plans[k];
          }
        }
      }
      t
  }

  /** After the script every listed name exists. */
  lemma {:induction false} KeepAllNamed(s: State, seeds: seq<Seed>, now: int)
    requires Valid(s)
    ensures forall i | 0 <= i < |seeds| :: Named(KeepAll(s, seeds, now).plans, seeds[i].name)
    decreases |seeds|
  {
    if seeds != [] {
      var s1 := UpsertKeep(s, seeds[0], now);
      KeepAllNamed(s1, seeds[1..], now);
      var t := KeepAll(s, seeds, now);
      var k :| k in s1.plans && s1.plans[k].name == seeds[0].name;
      assert t.plans[k] == s1.plans[k];
      forall i | 0 < i < |seeds|
        ensures Named(t.plans, seeds[i].name)
      {
        assert seeds[i] == seeds[1..][i - 1];
      }
    }
  }

  /** The `i`-th name is the name of the `i`-th seed. */
  lemma {:induction false} NameAt(seeds: seq<Seed>, i: int)
    requires 0 <= i < |seeds|
    ensures Names(seeds)[i] == seeds[i].name
    decreases i
  {
    if i > 0 {
      NameAt(seeds[1..], i - 1);
    }
  }

  /** A listed name that was missing before the script is a plan with exactly the listed fields. */
  lemma {:induction false} KeepAllCreates(s: State, seeds: seq<Seed>, now: int)
    requires Valid(s) && Distinct(Names(seeds))
    ensures forall i | 0 <= i < |seeds| && !Named(s.plans, seeds[i].name) ::
              Created(KeepAll(s, seeds, now).plans, seeds[i])
    decreases |seeds|
  {
    if seeds != [] {
      var s1 := UpsertKeep(s, seeds[0], now);
      assert Names(seeds)[1..] == Names(seeds[1..]);
      KeepAllCreates(s1, seeds[1..], now);
      var t := KeepAll(s, seeds, now);
      forall i | 0 <= i < |seeds| && !Named(s.plans, seeds[i].name)
        ensures Created(t.plans, seeds[i])
      {
        if i == 0 {
          assert t.plans[s.nextPlan] == s1.plans[s.nextPlan];
        } else {
          assert seeds[i] == seeds[1..][i - 1];
          NameAt(seeds, i);
          NameAt(seeds, 0);
          assert !Named(s1.plans, seeds[i].name);
        }
      }
    }
  }

  lemma {:induction false} KeepAllNoop(s: State, seeds: seq<Seed>, now: int)
    requires Valid(s) && forall i | 0 <= i < |seeds| :: Named(s.plans, seeds[i].name)
    ensures KeepAll(s, seeds, now) == s
    decreases |seeds|
  {
    if seeds != [] {
      assert forall i | 0 <= i < |seeds[1..]| :: seeds[1..][i] == seeds[i + 1];
      KeepAllNoop(s, seeds[1..], now);
    }
  }

  /**
   * After the seed script the three plans exist; those that were missing hold exactly
   * the listed fields and every plan that existed before is unchanged.
   */
  lemma ScriptSeedResult(s: State, now: int)
    requires Valid(s)
    ensures var t := KeepAll(s, ScriptSeeds, now);
      && (forall i | 0 <= i < |ScriptSeeds| :: Named(t.plans, ScriptSeeds[i].name))
      && (forall i | 0 <= i < |ScriptSeeds| && !Named(s.plans, ScriptSeeds[i].name) ::
            Created(t.plans, ScriptSeeds[i]))
  {
    SeedListsWellFormed();
    KeepAllNamed(s, ScriptSeeds, now);
    KeepAllCreates(s, ScriptSeeds, now);
  }

  /** Running the seed script twice leaves the store as running it once. */
  lemma ScriptSeedIdempotent(s: State, now: int, later: int)
    requires Valid(s)
    ensures var once := KeepAll(s, ScriptSeeds, now);
            KeepAll(once, ScriptSeeds, later) == once
  {
    SeedListsWellFormed();
    KeepAllNamed(s, ScriptSeeds, now);
    KeepAllNoop(KeepAll(s, ScriptSeeds, now), ScriptSeeds, later);
  }

  /** GET /investment-plans: every plan, in no particular order. */
  function AllPlans(s: State): (r: set<Plan>)
    requires Valid(s)
    ensures forall k | k in s.plans :: s.plans[k] in r
    ensures forall p | p in r :: p.id in s.plans && s.plans[p.id] == p
  {
    set k | k in s.plans :: s.plans[k]
  }

  /** After the seed route the plan listing offers each of the six plans. */
  lemma RouteSeedListed(s: State, now: int, i: int)
    requires Valid(s) && 0 <= i < |RouteSeeds|
    ensures exists p | p in AllPlans(OverwriteAll(s, RouteSeeds, now)) ::
      p.name == RouteSeeds[i].name && p.minAmount == RouteSeeds[i].minAmount
      && p.roi == RouteSeeds[i].roi && p.duration == RouteSeeds[i].duration
  {
    RouteSeedFits(s, now);
    var t := OverwriteAll(s, RouteSeeds, now);
    var seed := RouteSeeds[i];
    assert Current(t.plans, seed);
    var k :| k in t.plans && t.plans[k].name == RouteSeeds[i].name
             && t.plans[k].minAmount == RouteSeeds[i].minAmount
             && t.plans[k].roi == RouteSeeds[i].roi && t.plans[k].duration == RouteSeeds[i].duration;
    assert t.plans[k] in AllPlans(t);
  }
}
