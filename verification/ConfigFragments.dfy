// Discovery, preflight and the merge itself (config/config.go, readSources,
// mergeSources, Discover, Preflight).
module ConfigFragments {
  import opened Envelopes
  import opened NameOrder
  import opened ConfigMerge

  datatype Loaded = Loaded(config: Config, sha: string)

  // Refused: a fragment that does not decode, is empty or asks for another
  // protocol. Claimed: an ID or kind with two owners. Invalid: the merged config.
  datatype Outcome = Merged(loaded: Loaded) | Refused(name: string) | Claimed(name: string) | Invalid(verdict: Verdict)

  const NO_CONFIG := Config("", [], map[], false)

  // ----- The rule -----

  predicate Good(w: World, s: Source) {
    && w.decode(s.raw).Some?
    && var f := w.decode(s.raw).value;
       (|f.consumers| > 0 || |f.controllers| > 0) && SupportedProtocol(f)
  }

  function Fragment(w: World, s: Source): Config {
    match w.decode(s.raw)
    case None => NO_CONFIG
    case Some(f) => f
  }

  predicate SelfConsistent(f: Config) {
    UniqueConsumers(f.consumers) && UniqueControllers(f.controllers)
  }

  function ConsumerIDs(cs: seq<Consumer>): set<string> {
    set c | c in cs :: c.id
  }

  function ControllerIDs(m: map<string, Controller>): set<string> {
    set k | k in m :: m[k].id
  }

  // No consumer ID, request kind or controller ID with two owners.
  predicate Apart(f: Config, g: Config) {
    && ConsumerIDs(f.consumers) !! ConsumerIDs(g.consumers)
    && f.controllers.Keys !! g.controllers.Keys
    && ControllerIDs(f.controllers) !! ControllerIDs(g.controllers)
  }

  predicate Sound(w: World, s: Source) {
    Good(w, s) && SelfConsistent(Fragment(w, s)) && EntriesValid(Fragment(w, s))
  }

  // Every fragment stands on its own and every two are apart.
  ghost predicate Mergeable(w: World, ss: seq<Source>) {
    && ss != []
    && (forall s :: s in ss ==> Sound(w, s))
    && (forall s, t :: s in ss && t in ss && s != t ==> Apart(Fragment(w, s), Fragment(w, t)))
  }

  // The merged config and the text its digest is taken of, in the order given.
  function Union(w: World, ss: seq<Source>): Config {
    if ss == [] then NO_CONFIG
    else
      var m, f := Union(w, ss[..|ss| - 1]), Fragment(w, ss[|ss| - 1]);
      Config("", m.consumers + f.consumers, m.controllers + f.controllers, m.requireController || f.requireController)
  }

  function Manifest(w: World, ss: seq<Source>): string {
    if ss == [] then ""
    else
      var s := ss[|ss| - 1];
      Manifest(w, ss[..|ss| - 1]) + s.name + " " + w.sha(s.raw) + "\n"
  }

  function Effective(w: World, ss: seq<Source>): Loaded {
    Loaded(Union(w, Sort(ss)), w.shaText(Manifest(w, Sort(ss))))
  }

  // ----- Consequences of the rule -----

  // Neither acceptance, nor the config, nor its digest depends on the order of the fragments.
  lemma MergeIgnoresOrder(w: World, a: seq<Source>, b: seq<Source>)
    requires DistinctNames(a) && DistinctNames(b) && SameItems(a, b)
    ensures Mergeable(w, a) <==> Mergeable(w, b)
    ensures Effective(w, a) == Effective(w, b)
  {
    hide Sound, Apart, Union, Manifest, Sort;
    SortIgnoresOrder(a, b);
    if a != [] {
      assert a[0] in b;
    }
    if b != [] {
      assert b[0] in a;
    }
  }

  // Some of the fragments of a mergeable set merge.
  lemma SomeOfMergeableMerge(w: World, a: seq<Source>, b: seq<Source>)
    requires Mergeable(w, a) && b != [] && forall x :: x in b ==> x in a
    ensures Mergeable(w, b)
  {
    hide Sound, Apart;
  }

  // ----- Claims, one fragment after another -----

  // The rule over a list in order: each fragment consistent, and apart from those before.
  predicate AllApart(w: World, ss: seq<Source>) {
    && (forall i :: 0 <= i < |ss| ==> SelfConsistent(Fragment(w, ss[i])))
    && (forall i, j :: 0 <= i < j < |ss| ==> Apart(Fragment(w, ss[i]), Fragment(w, ss[j])))
  }

  lemma ApartIsSymmetric(f: Config, g: Config)
    ensures Apart(f, g) == Apart(g, f)
  {
  }

  lemma IdentifiersJoin(a: seq<Consumer>, b: seq<Consumer>, m: map<string, Controller>, n: map<string, Controller>)
    ensures ConsumerIDs(a + b) == ConsumerIDs(a) + ConsumerIDs(b)
    ensures m.Keys !! n.Keys ==> ControllerIDs(m + n) == ControllerIDs(m) + ControllerIDs(n)
  {
    assert forall c :: c in a + b <==> c in a || c in b;
    if m.Keys !! n.Keys {
      forall id ensures id in ControllerIDs(m + n) <==> id in ControllerIDs(m) + ControllerIDs(n) {
        if id in ControllerIDs(m) {
          var k :| k in m && m[k].id == id;
          assert (m + n)[k].id == id;
        }
        if id in ControllerIDs(n) {
          var k :| k in n && n[k].id == id;
          assert (m + n)[k].id == id;
        }
      }
    }
  }

  // Being apart from the union is being apart from each.
  lemma {:induction false} ApartFromUnion(w: World, ss: seq<Source>, f: Config)
    requires AllApart(w, ss)
    ensures Apart(Union(w, ss), f) <==> forall i :: 0 <= i < |ss| ==> Apart(Fragment(w, ss[i]), f)
    decreases |ss|
  {
    if ss != [] {
      hide SelfConsistent, Fragment;
      var prefix, g := ss[..|ss| - 1], Fragment(w, ss[|ss| - 1]);
      var m := Union(w, prefix);
      ApartFromUnion(w, prefix, f);
      ApartFromUnion(w, prefix, g);
      IdentifiersJoin(m.consumers, g.consumers, m.controllers, g.controllers);
      assert Apart(m, g) by {
        assert forall i :: 0 <= i < |prefix| ==> prefix[i] == ss[i];
      }
      assert Apart(Union(w, ss), f) <==> Apart(m, f) && Apart(g, f);
      assert forall i :: 0 <= i < |prefix| ==> prefix[i] == ss[i];
      hide Apart, Union;
    }
  }

  lemma ConsistentJoin(m: Config, f: Config)
    requires SelfConsistent(m) && SelfConsistent(f) && Apart(m, f)
    ensures SelfConsistent(Config("", m.consumers + f.consumers, m.controllers + f.controllers, false))
  {
    var cs := m.consumers + f.consumers;
    forall i, j | 0 <= i < j < |cs| ensures cs[i].id != cs[j].id {
      if i < |m.consumers| && j >= |m.consumers| {
        assert cs[i] in m.consumers && cs[j] in f.consumers;
        assert cs[i].id in ConsumerIDs(m.consumers) && cs[j].id in ConsumerIDs(f.consumers);
      }
    }
    var cm := m.controllers + f.controllers;
    forall k, l | k in cm && l in cm && cm[k].id == cm[l].id ensures k == l {
      if k in m.controllers {
        assert m.controllers[k].id in ControllerIDs(m.controllers);
      }
      if l in m.controllers {
        assert m.controllers[l].id in ControllerIDs(m.controllers);
      }
      if k in f.controllers {
        assert f.controllers[k].id in ControllerIDs(f.controllers);
      }
      if l in f.controllers {
        assert f.controllers[l].id in ControllerIDs(f.controllers);
      }
    }
  }

  // The union of fragments that are apart has no duplicate left for the final
  // validation to find.
  lemma {:induction false} UnionConsistent(w: World, ss: seq<Source>)
    requires AllApart(w, ss)
    ensures SelfConsistent(Union(w, ss))
    decreases |ss|
  {
    if ss != [] {
      hide SelfConsistent, Apart, Fragment;
      var prefix, s := ss[..|ss| - 1], ss[|ss| - 1];
      UnionConsistent(w, prefix);
      ApartFromUnion(w, prefix, Fragment(w, s));
      assert forall i :: 0 <= i < |prefix| ==> prefix[i] == ss[i];
      ConsistentJoin(Union(w, prefix), Fragment(w, s));
      FlagIsFree(Union(w, ss));
    } else {
      NothingIsConsistent();
    }
  }

  lemma FlagIsFree(c: Config)
    ensures SelfConsistent(c) == SelfConsistent(Config("", c.consumers, c.controllers, false))
  {
  }

  lemma NothingIsConsistent()
    ensures SelfConsistent(NO_CONFIG)
  {
  }

  lemma {:induction false} UnionEntries(w: World, ss: seq<Source>)
    requires AllApart(w, ss)
    ensures EntriesValid(Union(w, ss)) <==> forall i :: 0 <= i < |ss| ==> EntriesValid(Fragment(w, ss[i]))
    decreases |ss|
  {
    if ss != [] {
      hide SelfConsistent, Fragment, ValidConsumer, ValidController;
      var prefix, f := ss[..|ss| - 1], Fragment(w, ss[|ss| - 1]);
      var m := Union(w, prefix);
      UnionEntries(w, prefix);
      ApartFromUnion(w, prefix, f);
      assert forall i :: 0 <= i < |prefix| ==> prefix[i] == ss[i];
      EntriesJoin(m, f, Union(w, ss));
      hide EntriesValid, Apart, Union;
    }
  }

  lemma EntriesJoin(m: Config, f: Config, both: Config)
    requires Apart(m, f)
    requires both.consumers == m.consumers + f.consumers && both.controllers == m.controllers + f.controllers
    ensures EntriesValid(both) <==> EntriesValid(m) && EntriesValid(f)
  {
    hide ValidConsumer, ValidController;
    if EntriesValid(both) {
      forall i | 0 <= i < |m.consumers| ensures ValidConsumer(m.consumers[i]) {
        assert both.consumers[i] == m.consumers[i];
      }
      forall i | 0 <= i < |f.consumers| ensures ValidConsumer(f.consumers[i]) {
        assert both.consumers[|m.consumers| + i] == f.consumers[i];
      }
      forall k | k in m.controllers ensures ValidController(k, m.controllers[k]) {
        assert both.controllers[k] == m.controllers[k];
      }
      forall k | k in f.controllers ensures ValidController(k, f.controllers[k]) {
        assert both.controllers[k] == f.controllers[k];
      }
    }
  }

  // ----- The merge -----

  method ClaimConsumers(owners: map<string, string>, cs: seq<Consumer>, rel: string)
    returns (ok: bool, after: map<string, string>)
    ensures ok <==> UniqueConsumers(cs) && ConsumerIDs(cs) !! owners.Keys
    ensures ok ==> after.Keys == owners.Keys + ConsumerIDs(cs)
  {
    after := owners;
    for i := 0 to |cs|
      invariant UniqueConsumers(cs[..i]) && ConsumerIDs(cs[..i]) !! owners.Keys
      invariant after.Keys == owners.Keys + ConsumerIDs(cs[..i])
    {
      assert cs[..i + 1] == cs[..i] + [cs[i]];
      assert cs[i] in cs;
      if cs[i].id in after {
        if cs[i].id in ConsumerIDs(cs[..i]) {
          ghost var c :| c in cs[..i] && c.id == cs[i].id;
          ghost var j :| 0 <= j < i && cs[j] == c;
        } else {
          assert cs[i].id in ConsumerIDs(cs);
        }
        return false, after;
      }
      after := after[cs[i].id := rel];
    }
    assert cs[..|cs|] == cs;
    return true, after;
  }

  method ClaimControllers(kindOwners: map<string, string>, idOwners: map<string, string>,
                          m: map<string, Controller>, rel: string)
    returns (ok: bool, kindsAfter: map<string, string>, idsAfter: map<string, string>)
    ensures ok <==> UniqueControllers(m) && m.Keys !! kindOwners.Keys && ControllerIDs(m) !! idOwners.Keys
    ensures ok ==> kindsAfter.Keys == kindOwners.Keys + m.Keys && idsAfter.Keys == idOwners.Keys + ControllerIDs(m)
  {
    var kinds := SortedKinds(m);
    assert forall i :: 0 <= i < |kinds| ==> kinds[i] in m;
    ok, kindsAfter, idsAfter := ClaimKinds(kindOwners, idOwners, m, kinds, rel);
    ClaimedKinds(m, kinds);
  }

  function Taken(m: map<string, Controller>, kinds: seq<string>): set<string>
    requires forall i :: 0 <= i < |kinds| ==> kinds[i] in m
  {
    set i | 0 <= i < |kinds| :: m[kinds[i]].id
  }

  predicate DistinctIDs(m: map<string, Controller>, kinds: seq<string>)
    requires forall i :: 0 <= i < |kinds| ==> kinds[i] in m
  {
    forall i, j :: 0 <= i < j < |kinds| ==> m[kinds[i]].id != m[kinds[j]].id
  }

  lemma ClaimedKinds(m: map<string, Controller>, kinds: seq<string>)
    requires forall k :: k in kinds <==> k in m
    requires forall i :: 0 <= i < |kinds| ==> kinds[i] in m
    requires forall i, j :: 0 <= i < j < |kinds| ==> kinds[i] != kinds[j]
    ensures Taken(m, kinds) == ControllerIDs(m) && (set k | k in kinds) == m.Keys
    ensures DistinctIDs(m, kinds) <==> UniqueControllers(m)
  {
    forall k | k in m ensures m[k].id in Taken(m, kinds) {
      assert k in kinds;
    }
    if DistinctIDs(m, kinds) {
      forall k, l | k in m && l in m && m[k].id == m[l].id ensures k == l {
        assert k in kinds && l in kinds;
      }
    }
  }

  // None of these kinds and their controller IDs has an owner, or two.
  predicate Free(m: map<string, Controller>, kinds: seq<string>, kindsTaken: set<string>, idsTaken: set<string>)
    requires forall i :: 0 <= i < |kinds| ==> kinds[i] in m
  {
    DistinctIDs(m, kinds) && (set k | k in kinds) !! kindsTaken && Taken(m, kinds) !! idsTaken
  }

  lemma NothingTaken(m: map<string, Controller>, kinds: seq<string>, kindsTaken: set<string>, idsTaken: set<string>)
    requires kinds == []
    ensures Taken(m, kinds) == {} && Free(m, kinds, kindsTaken, idsTaken)
  {
  }

  method ClaimKinds(kindOwners: map<string, string>, idOwners: map<string, string>,
                    m: map<string, Controller>, kinds: seq<string>, rel: string)
    returns (ok: bool, kindsAfter: map<string, string>, idsAfter: map<string, string>)
    requires forall i :: 0 <= i < |kinds| ==> kinds[i] in m
    requires forall i, j :: 0 <= i < j < |kinds| ==> kinds[i] != kinds[j]
    ensures ok <==> Free(m, kinds, kindOwners.Keys, idOwners.Keys)
    ensures ok ==> kindsAfter.Keys == kindOwners.Keys + (set k | k in kinds)
    ensures ok ==> idsAfter.Keys == idOwners.Keys + Taken(m, kinds)
  {
    hide Free, Taken;
    kindsAfter, idsAfter := kindOwners, idOwners;
    NothingTaken(m, kinds[..0], kindOwners.Keys, idOwners.Keys);
    for i := 0 to |kinds|
      invariant Free(m, kinds[..i], kindOwners.Keys, idOwners.Keys)
      invariant kindsAfter.Keys == kindOwners.Keys + (set k | k in kinds[..i])
      invariant idsAfter.Keys == idOwners.Keys + Taken(m, kinds[..i])
    {
      var kind := kinds[i];
      OneKindMore(m, kinds, i, kindOwners.Keys, idOwners.Keys);
      assert kind !in kinds[..i];
      if kind in kindsAfter {
        return false, kindsAfter, idsAfter;
      }
      kindsAfter := kindsAfter[kind := rel];
      if m[kind].id in idsAfter {
        return false, kindsAfter, idsAfter;
      }
      idsAfter := idsAfter[m[kind].id := rel];
      assert kinds[..i + 1] == kinds[..i] + [kind];
    }
    assert kinds[..|kinds|] == kinds;
    return true, kindsAfter, idsAfter;
  }

  lemma OneKindMore(m: map<string, Controller>, kinds: seq<string>, i: nat, kindsTaken: set<string>,
                    idsTaken: set<string>)
    requires forall j :: 0 <= j < |kinds| ==> kinds[j] in m
    requires i < |kinds| && Free(m, kinds[..i], kindsTaken, idsTaken)
    ensures Taken(m, kinds[..i + 1]) == Taken(m, kinds[..i]) + {m[kinds[i]].id}
    ensures Free(m, kinds[..i + 1], kindsTaken, idsTaken) <==>
              kinds[i] !in kindsTaken && m[kinds[i]].id !in idsTaken + Taken(m, kinds[..i])
    ensures !Free(m, kinds[..i + 1], kindsTaken, idsTaken) ==> !Free(m, kinds, kindsTaken, idsTaken)
  {
    TakenGrows(m, kinds, i);
    assert kinds[..i + 1] == kinds[..i] + [kinds[i]];
    DistinctGrows(m, kinds, i);
    FreeStart(m, kinds, i + 1, kindsTaken, idsTaken);
    hide DistinctIDs, Taken;
  }

  lemma FreeStart(m: map<string, Controller>, kinds: seq<string>, n: nat, kindsTaken: set<string>,
                  idsTaken: set<string>)
    requires forall j :: 0 <= j < |kinds| ==> kinds[j] in m
    requires n <= |kinds|
    ensures Free(m, kinds, kindsTaken, idsTaken) ==> Free(m, kinds[..n], kindsTaken, idsTaken)
  {
    assert forall j :: 0 <= j < n ==> kinds[..n][j] == kinds[j];
    assert forall k :: k in kinds[..n] ==> k in kinds;
    assert Taken(m, kinds[..n]) <= Taken(m, kinds);
  }

  lemma DistinctGrows(m: map<string, Controller>, kinds: seq<string>, i: nat)
    requires forall j :: 0 <= j < |kinds| ==> kinds[j] in m
    requires i < |kinds| && DistinctIDs(m, kinds[..i])
    ensures DistinctIDs(m, kinds[..i + 1]) <==> m[kinds[i]].id !in Taken(m, kinds[..i])
  {
    var longer, prefix := kinds[..i + 1], kinds[..i];
    assert forall j :: 0 <= j < i ==> longer[j] == prefix[j];
    assert longer[i] == kinds[i];
    forall j | 0 <= j < i ensures m[prefix[j]].id in Taken(m, prefix) {
    }
  }

  lemma TakenGrows(m: map<string, Controller>, kinds: seq<string>, i: nat)
    requires forall i :: 0 <= i < |kinds| ==> kinds[i] in m
    requires i < |kinds|
    ensures Taken(m, kinds[..i + 1]) == Taken(m, kinds[..i]) + {m[kinds[i]].id}
  {
    var longer := kinds[..i + 1];
    assert forall j :: 0 <= j < i ==> longer[j] == kinds[..i][j];
    assert longer[i] == kinds[i];
  }

  // One fragment more, given what is owned so far.
  lemma OneMore(w: World, ss: seq<Source>, item: Source)
    requires AllApart(w, ss)
    ensures AllApart(w, ss + [item]) <==>
      SelfConsistent(Fragment(w, item)) && Apart(Union(w, ss), Fragment(w, item))
  {
    hide SelfConsistent, Apart, Fragment, Union;
    var longer := ss + [item];
    ApartFromUnion(w, ss, Fragment(w, item));
    assert forall j :: 0 <= j < |ss| ==> longer[j] == ss[j];
    assert longer[|ss|] == item;
  }

  // A list with a bad start is bad.
  lemma BadStart(w: World, ss: seq<Source>, i: nat)
    requires i <= |ss| && !AllApart(w, ss[..i])
    ensures !AllApart(w, ss)
  {
    hide SelfConsistent, Apart, Fragment;
    assert forall j :: 0 <= j < i ==> ss[..i][j] == ss[j];
  }

  // In a list of distinct names the rule by position is the rule by fragment.
  lemma MergeableInOrder(w: World, ss: seq<Source>)
    requires DistinctNames(ss)
    ensures Mergeable(w, ss) <==>
      ss != [] && AllApart(w, ss) && forall i :: 0 <= i < |ss| ==> Good(w, ss[i]) && EntriesValid(Fragment(w, ss[i]))
  {
    hide SelfConsistent, Apart, Fragment, Good, EntriesValid;
    if Mergeable(w, ss) {
      forall i | 0 <= i < |ss|
        ensures Good(w, ss[i]) && EntriesValid(Fragment(w, ss[i])) && SelfConsistent(Fragment(w, ss[i]))
      {
        assert ss[i] in ss;
      }
      forall i, j | 0 <= i < j < |ss| ensures Apart(Fragment(w, ss[i]), Fragment(w, ss[j])) {
        assert ss[i] in ss && ss[j] in ss;
      }
    }
    if AllApart(w, ss) {
      forall s, t | s in ss && t in ss && s != t ensures Apart(Fragment(w, s), Fragment(w, t)) {
        var i :| 0 <= i < |ss| && ss[i] == s;
        var j :| 0 <= j < |ss| && ss[j] == t;
        ApartIsSymmetric(Fragment(w, ss[i]), Fragment(w, ss[j]));
        ApartIsSymmetric(Fragment(w, ss[j]), Fragment(w, ss[i]));
      }
    }
  }

  // mergeSources accepts exactly by the rule, whatever the order it is given, and its
  // final validation never reports a duplicate.
  method MergeSources(w: World, sources: seq<Source>) returns (r: Outcome)
    requires DistinctNames(sources)
    ensures r.Merged? <==> Mergeable(w, sources)
    ensures r.Merged? ==> r.loaded == Effective(w, sources)
    ensures r.Invalid? ==>
              r.verdict == BadConsumer || r.verdict == BadController || (r.verdict == NoEntries && sources == [])
  {
    hide Mergeable, AllApart, Apart, SelfConsistent, Good, EntriesValid, Sort, Sound;
    var sorted := Sort(sources);
    SortKeeps(sources);
    AscendingNames(sorted);
    MergeIgnoresOrder(w, sources, sorted);
    MergeableInOrder(w, sorted);
    r := MergeSorted(w, sorted);
    AscendingIsUnique(Sort(sorted), sorted) by { SortKeeps(sorted); }
  }

  lemma AscendingNames(ss: seq<Source>)
    requires Ascending(ss)
    ensures DistinctNames(ss)
  {
    forall i, j | 0 <= i < j < |ss| ensures ss[i].name != ss[j].name {
      LessIsIrreflexive(ss[i].name);
    }
  }

  method MergeSorted(w: World, sorted: seq<Source>) returns (r: Outcome)
    ensures r.Merged? <==>
      sorted != [] && AllApart(w, sorted)
      && forall i :: 0 <= i < |sorted| ==> Good(w, sorted[i]) && EntriesValid(Fragment(w, sorted[i]))
    ensures r.Merged? ==> r.loaded == Loaded(Union(w, sorted), w.shaText(Manifest(w, sorted)))
    ensures r.Invalid? ==>
              r.verdict == BadConsumer || r.verdict == BadController || (r.verdict == NoEntries && sorted == [])
  {
    hide *;
    var ledger := Ledger(NO_CONFIG, map[], map[], map[], "");
    NothingTracked(w);
    for i := 0 to |sorted|
      invariant Tracks(w, sorted[..i], ledger)
    {
      var refusal;
      refusal, ledger := AddFragment(w, sorted[..i], sorted[i], ledger);
      assert sorted[..i] + [sorted[i]] == sorted[..i + 1];
      if refusal.Some? {
        if !AllApart(w, sorted[..i + 1]) {
          BadStart(w, sorted, i + 1);
        }
        return refusal.value;
      }
    }
    assert sorted[..|sorted|] == sorted;
    var verdict := Validate(ledger.config);
    Tracked(w, sorted, ledger);
    FinalVerdict(w, sorted);
    r := if verdict == Fine then Merged(Loaded(ledger.config, w.shaText(ledger.manifest))) else Invalid(verdict);
  }

  // The merge under way: the config so far, who owns each ID and kind, and the manifest.
  datatype Ledger = Ledger(
    config: Config, kindOwners: map<string, string>, idOwners: map<string, string>,
    consumerOwners: map<string, string>, manifest: string)

  ghost predicate Tracks(w: World, ss: seq<Source>, l: Ledger) {
    && l.config == Union(w, ss) && l.manifest == Manifest(w, ss)
    && l.consumerOwners.Keys == ConsumerIDs(l.config.consumers)
    && l.kindOwners.Keys == l.config.controllers.Keys && l.idOwners.Keys == ControllerIDs(l.config.controllers)
    && AllApart(w, ss) && forall j :: 0 <= j < |ss| ==> Good(w, ss[j])
  }

  lemma NothingTracked(w: World)
    ensures Tracks(w, [], Ledger(NO_CONFIG, map[], map[], map[], ""))
  {
  }

  lemma Tracked(w: World, ss: seq<Source>, l: Ledger)
    requires Tracks(w, ss, l)
    ensures l.config == Union(w, ss) && l.manifest == Manifest(w, ss)
    ensures AllApart(w, ss) && forall j :: 0 <= j < |ss| ==> Good(w, ss[j])
  {
  }

  // The final validation of a union of fragments that are apart.
  lemma FinalVerdict(w: World, ss: seq<Source>)
    requires AllApart(w, ss) && forall j :: 0 <= j < |ss| ==> Good(w, ss[j])
    ensures var c := Union(w, ss);
            && (ValidConfig(c) <==> ss != [] && forall i :: 0 <= i < |ss| ==> EntriesValid(Fragment(w, ss[i])))
            && UniqueConsumers(c.consumers) && UniqueControllers(c.controllers) && SupportedProtocol(c)
            && (|c.consumers| == 0 && |c.controllers| == 0 <==> ss == [])
  {
    UnionConsistent(w, ss);
    UnionEntries(w, ss);
    UnionShape(w, ss);
    hide AllApart, EntriesValid, UniqueConsumers, UniqueControllers, Good, Fragment, Union;
  }

  // A fragment's own checks.
  method DecodeFragment(w: World, item: Source) returns (fragment: Option<Config>)
    ensures fragment.Some? <==> Good(w, item)
    ensures fragment.Some? ==> fragment.value == Fragment(w, item)
    ensures fragment.None? <==>
              match w.decode(item.raw)
              case None => true
              case Some(f) =>
                || (f.consumers == [] && f.controllers == map[])
                || (f.requiresProtocol != "" && f.requiresProtocol != "1")
  {
    fragment := w.decode(item.raw);
    if fragment.None? {
      return None;
    }
    if |fragment.value.consumers| == 0 && |fragment.value.controllers| == 0 {
      return None;
    }
    if fragment.value.requiresProtocol != "" && fragment.value.requiresProtocol != VERSION {
      return None;
    }
  }

  // The owners on record decide whether a fragment conflicts.
  lemma OwnersDecide(w: World, ss: seq<Source>, item: Source, l: Ledger)
    requires Tracks(w, ss, l)
    ensures var f := Fragment(w, item);
            AllApart(w, ss + [item]) <==>
              && UniqueConsumers(f.consumers) && ConsumerIDs(f.consumers) !! l.consumerOwners.Keys
              && UniqueControllers(f.controllers) && f.controllers.Keys !! l.kindOwners.Keys
              && ControllerIDs(f.controllers) !! l.idOwners.Keys
  {
    OneMore(w, ss, item);
    hide AllApart, Union, Manifest, ConsumerIDs, ControllerIDs, UniqueConsumers, UniqueControllers, Good;
  }

  lemma TracksOneMore(w: World, ss: seq<Source>, item: Source, l: Ledger, after: Ledger)
    requires Tracks(w, ss, l) && Good(w, item) && AllApart(w, ss + [item])
    requires var f := Fragment(w, item);
             && after.consumerOwners.Keys == l.consumerOwners.Keys + ConsumerIDs(f.consumers)
             && after.kindOwners.Keys == l.kindOwners.Keys + f.controllers.Keys
             && after.idOwners.Keys == l.idOwners.Keys + ControllerIDs(f.controllers)
             && after.config == Config("", l.config.consumers + f.consumers, l.config.controllers + f.controllers,
                                       l.config.requireController || f.requireController)
             && after.manifest == l.manifest + item.name + " " + w.sha(item.raw) + "\n"
    ensures Tracks(w, ss + [item], after)
  {
    var f := Fragment(w, item);
    OwnersDecide(w, ss, item, l);
    IdentifiersJoin(l.config.consumers, f.consumers, l.config.controllers, f.controllers);
    OneJoined(w, ss, item);
    hide AllApart, Union, Manifest, ConsumerIDs, ControllerIDs, UniqueConsumers, UniqueControllers, Good, Fragment;
  }

  // One turn of the merge loop.
  method AddFragment(w: World, ghost ss: seq<Source>, item: Source, l: Ledger)
    returns (refusal: Option<Outcome>, after: Ledger)
    requires Tracks(w, ss, l)
    ensures refusal.None? ==> Tracks(w, ss + [item], after)
    ensures refusal.Some? ==>
      && (refusal.value.Refused? || refusal.value.Claimed?)
      && !(Good(w, item) && AllApart(w, ss + [item]))
  {
    hide *;
    var decoded := DecodeFragment(w, item);
    if decoded.None? {
      return Some(Refused(item.name)), l;
    }
    var fragment := decoded.value;
    OwnersDecide(w, ss, item, l);
    var consumersFree, consumerOwners := ClaimConsumers(l.consumerOwners, fragment.consumers, item.name);
    if !consumersFree {
      return Some(Claimed(item.name)), l;
    }
    var controllersFree, kindOwners, idOwners :=
      ClaimControllers(l.kindOwners, l.idOwners, fragment.controllers, item.name);
    if !controllersFree {
      return Some(Claimed(item.name)), l;
    }
    after := Ledger(
      Config("", l.config.consumers + fragment.consumers, l.config.controllers + fragment.controllers,
             l.config.requireController || fragment.requireController),
      kindOwners, idOwners, consumerOwners, l.manifest + item.name + " " + w.sha(item.raw) + "\n");
    TracksOneMore(w, ss, item, l, after);
    return None, after;
  }

  lemma OneJoined(w: World, ss: seq<Source>, item: Source)
    ensures var m, f := Union(w, ss), Fragment(w, item);
            Union(w, ss + [item])
            == Config("", m.consumers + f.consumers, m.controllers + f.controllers,
                      m.requireController || f.requireController)
    ensures Manifest(w, ss + [item]) == Manifest(w, ss) + item.name + " " + w.sha(item.raw) + "\n"
  {
    assert (ss + [item])[..|ss|] == ss;
  }

  lemma {:induction false} UnionShape(w: World, ss: seq<Source>)
    requires forall i :: 0 <= i < |ss| ==> Good(w, ss[i])
    ensures var m := Union(w, ss);
            m.requiresProtocol == "" && (|m.consumers| > 0 || |m.controllers| > 0 <==> ss != [])
    decreases |ss|
  {
    if ss != [] {
      var prefix, f := ss[..|ss| - 1], Fragment(w, ss[|ss| - 1]);
      UnionShape(w, prefix);
      assert Good(w, ss[|ss| - 1]);
      if |f.controllers| > 0 {
        var k :| k in f.controllers;
        assert k in Union(w, ss).controllers;
      }
    }
  }

  // Every controller of a fragment is in the union, under its kind.
  lemma {:induction false} ControllersKept(w: World, ss: seq<Source>, i: nat, k: string)
    requires AllApart(w, ss) && i < |ss| && k in Fragment(w, ss[i]).controllers
    ensures k in Union(w, ss).controllers && Union(w, ss).controllers[k] == Fragment(w, ss[i]).controllers[k]
    decreases |ss|
  {
    hide SelfConsistent, ConsumerIDs, ControllerIDs, Fragment;
    var n := |ss| - 1;
    if i < n {
      assert Apart(Fragment(w, ss[i]), Fragment(w, ss[n]));
      assert ss[..n][i] == ss[i];
      ControllersKept(w, ss[..n], i, k);
    }
  }

  lemma {:induction false} ControllerOrigin(w: World, ss: seq<Source>, k: string) returns (i: nat)
    requires k in Union(w, ss).controllers
    ensures i < |ss| && k in Fragment(w, ss[i]).controllers
    decreases |ss|
  {
    hide Fragment;
    var n := |ss| - 1;
    if k in Fragment(w, ss[n]).controllers {
      i := n;
    } else {
      i := ControllerOrigin(w, ss[..n], k);
    }
  }

  lemma {:induction false} ConsumerKept(w: World, ss: seq<Source>, i: nat, c: Consumer)
    requires i < |ss| && c in Fragment(w, ss[i]).consumers
    ensures c in Union(w, ss).consumers
    decreases |ss|
  {
    hide Fragment;
    var n := |ss| - 1;
    if i < n {
      ConsumerKept(w, ss[..n], i, c);
    }
  }

  lemma {:induction false} ConsumerOrigin(w: World, ss: seq<Source>, c: Consumer) returns (i: nat)
    requires c in Union(w, ss).consumers
    ensures i < |ss| && c in Fragment(w, ss[i]).consumers
    decreases |ss|
  {
    hide Fragment;
    var n := |ss| - 1;
    if c in Fragment(w, ss[n]).consumers {
      i := n;
    } else {
      i := ConsumerOrigin(w, ss[..n], c);
    }
  }

  lemma {:induction false} RequirementOrigin(w: World, ss: seq<Source>)
    ensures Union(w, ss).requireController <==> exists i :: 0 <= i < |ss| && Fragment(w, ss[i]).requireController
    decreases |ss|
  {
    hide Fragment;
    if ss != [] {
      var n := |ss| - 1;
      RequirementOrigin(w, ss[..n]);
      assert forall i :: 0 <= i < n ==> ss[..n][i] == ss[i];
      if i :| 0 <= i < |ss| && Fragment(w, ss[i]).requireController {
        assert i < n ==> Fragment(w, ss[..n][i]).requireController;
      }
    }
  }

  // A successful merge is the disjoint union of its fragments: every consumer and
  // every controller of each, under its own ID and kind, and nothing else.
  lemma MergedIsDisjointUnion(w: World, ss: seq<Source>)
    requires AllApart(w, ss)
    ensures forall i, k :: 0 <= i < |ss| && k in Fragment(w, ss[i]).controllers ==>
              k in Union(w, ss).controllers && Union(w, ss).controllers[k] == Fragment(w, ss[i]).controllers[k]
    ensures forall k :: k in Union(w, ss).controllers ==>
              exists i :: 0 <= i < |ss| && k in Fragment(w, ss[i]).controllers
    ensures forall c :: c in Union(w, ss).consumers <==> exists i :: 0 <= i < |ss| && c in Fragment(w, ss[i]).consumers
    ensures Union(w, ss).requireController <==> exists i :: 0 <= i < |ss| && Fragment(w, ss[i]).requireController
  {
    hide *;
    forall i, k | 0 <= i < |ss| && k in Fragment(w, ss[i]).controllers
      ensures k in Union(w, ss).controllers && Union(w, ss).controllers[k] == Fragment(w, ss[i]).controllers[k]
    {
      ControllersKept(w, ss, i, k);
    }
    forall k | k in Union(w, ss).controllers ensures exists i :: 0 <= i < |ss| && k in Fragment(w, ss[i]).controllers {
      var i := ControllerOrigin(w, ss, k);
    }
    forall c | c in Union(w, ss).consumers ensures exists i :: 0 <= i < |ss| && c in Fragment(w, ss[i]).consumers {
      var i := ConsumerOrigin(w, ss, c);
    }
    forall i, c | 0 <= i < |ss| && c in Fragment(w, ss[i]).consumers ensures c in Union(w, ss).consumers {
      ConsumerKept(w, ss, i, c);
    }
    RequirementOrigin(w, ss);
  }

  // ----- The directory -----

  // filepath.Ext: from the last dot of the name.
  function Ext(name: string): string {
    if name == "" then "" else if LastDot(name) == |name| then "" else name[LastDot(name)..]
  }

  function LastDot(name: string): (n: nat)
    ensures n <= |name|
  {
    if name == "" then 0
    else
      var n := LastDot(name[1..]);
      if n < |name| - 1 then n + 1 else if name[0] == '.' then 0 else |name|
  }

  predicate Yaml(name: string) {
    Ext(name) == ".yaml" || Ext(name) == ".yml"
  }

  // Those whose name ends in one of the two extensions.
  lemma YamlByEnding(name: string)
    ensures Yaml(name) <==> EndsWith(name, ".yaml") || EndsWith(name, ".yml")
  {
    FromLastDot(name, ".yaml");
    FromLastDot(name, ".yml");
  }

  predicate EndsWith(name: string, suffix: string) {
    |suffix| <= |name| && name[|name| - |suffix|..] == suffix
  }

  lemma {:induction false} FromLastDot(name: string, suffix: string)
    requires suffix != "" && suffix[0] == '.' && '.' !in suffix[1..]
    ensures Ext(name) == suffix <==> EndsWith(name, suffix)
    decreases |name|
  {
    if name != "" {
      var rest := name[1..];
      FromLastDot(rest, suffix);
      LastDotIsLast(name);
      if |suffix| < |name| {
        assert name[|name| - |suffix|..] == rest[|rest| - |suffix|..];
      } else if |suffix| == |name| {
        assert name[0..] == name;
      }
      if LastDot(rest) < |rest| {
        assert name[LastDot(name)..] == rest[LastDot(rest)..];
      }
    }
  }

  lemma {:induction false} LastDotIsLast(name: string)
    ensures LastDot(name) < |name| ==> name[LastDot(name)] == '.' && '.' !in name[LastDot(name) + 1..]
    ensures LastDot(name) == |name| ==> '.' !in name
    decreases |name|
  {
    if name != "" {
      var rest := name[1..];
      LastDotIsLast(rest);
      assert name == [name[0]] + rest;
      if LastDot(rest) < |rest| {
        assert name[LastDot(name) + 1..] == rest[LastDot(rest) + 1..];
      }
    }
  }

  // The fragments among the regular files of the directory.
  ghost predicate Reads(files: map<string, Bytes>, ss: seq<Source>) {
    Ascending(ss) && forall s :: s in ss <==> s.name in files && Yaml(s.name) && s.raw == files[s.name]
  }

  method ReadSources(files: map<string, Bytes>) returns (ss: seq<Source>)
    ensures Reads(files, ss)
  {
    hide Yaml, Less;
    var found: seq<Source> := [];
    var left := files.Keys;
    while left != {}
      invariant left <= files.Keys && DistinctNames(found)
      invariant forall s :: s in found <==> s.name in files && s.name !in left && Yaml(s.name) && s.raw == files[s.name]
    {
      var name :| name in left;
      left := left - {name};
      if Yaml(name) {
        found := found + [Source(name, files[name])];
      }
    }
    ss := Sort(found);
    SortKeeps(found);
  }

  method Discover(w: World, files: map<string, Bytes>) returns (r: Option<Loaded>)
    ensures forall ss :: Reads(files, ss) ==>
              && (r.Some? <==> Mergeable(w, ss))
              && (r.Some? ==> r.value == Effective(w, ss))
  {
    hide Mergeable, Effective, Reads, Sort;
    var sources := ReadSources(files);
    forall ss | Reads(files, ss) ensures ss == sources && DistinctNames(ss) {
      ReadsOnce(files, ss, sources);
    }
    if sources == [] {
      NothingMerges(w);
      return None;
    }
    var outcome := MergeSources(w, sources);
    r := if outcome.Merged? then Some(outcome.loaded) else None;
  }

  lemma ReadsOnce(files: map<string, Bytes>, a: seq<Source>, b: seq<Source>)
    requires Reads(files, a) && Reads(files, b)
    ensures a == b && DistinctNames(a)
  {
    AscendingIsUnique(a, b);
    AscendingNames(a);
  }

  lemma NothingMerges(w: World)
    ensures !Mergeable(w, [])
  {
  }

  method Preflight(w: World, files: map<string, Bytes>, name: string, raw: Bytes) returns (ok: bool)
    ensures forall ss :: Reads(files, ss) ==> (ok <==> Mergeable(w, Without(ss, name) + [Source(name, raw)]))
  {
    hide Mergeable, Effective, Reads;
    var sources := ReadSources(files);
    var kept: seq<Source> := [];
    for i := 0 to |sources|
      invariant kept == Without(sources[..i], name)
    {
      assert sources[..i + 1][..i] == sources[..i];
      if sources[i].name != name {
        kept := kept + [sources[i]];
      }
    }
    assert sources[..|sources|] == sources;
    forall ss | Reads(files, ss) ensures ss == sources {
      ReadsOnce(files, ss, sources);
    }
    ReadsOnce(files, sources, sources);
    WithoutKeeps(sources, name);
    var outcome := MergeSources(w, kept + [Source(name, raw)]);
    ok := outcome.Merged?;
  }

  function Without(ss: seq<Source>, name: string): seq<Source> {
    if ss == [] then []
    else
      var s := ss[|ss| - 1];
      Without(ss[..|ss| - 1], name) + if s.name != name then [s] else []
  }

  lemma {:induction false} WithoutKeeps(ss: seq<Source>, name: string)
    requires DistinctNames(ss)
    ensures DistinctNames(Without(ss, name))
    ensures forall s :: s in Without(ss, name) <==> s in ss && s.name != name
    decreases |ss|
  {
    if ss != [] {
      var prefix := ss[..|ss| - 1];
      WithoutKeeps(prefix, name);
      assert forall s :: s in ss <==> s in prefix || s == ss[|ss| - 1];
    }
  }

  // Preflight accepts a .yaml or .yml fragment exactly when Discover succeeds once it
  // is written, and then what Discover loads is what Preflight merged. A file of any
  // other extension is not read, so writing it leaves the discovered fragments as they were.
  lemma PreflightForetellsDiscover(
    w: World, files: map<string, Bytes>, name: string, raw: Bytes, before: seq<Source>, after: seq<Source>)
    requires Reads(files, before) && Reads(files[name := raw], after)
    ensures var candidate := Without(before, name) + [Source(name, raw)];
            Yaml(name) ==>
              && (Mergeable(w, candidate) <==> Mergeable(w, after))
              && Effective(w, candidate) == Effective(w, after)
    ensures !Yaml(name) ==> after == before
  {
    hide Mergeable, Effective, Yaml, Less;
    var candidate := Without(before, name) + [Source(name, raw)];
    AscendingNames(before);
    AscendingNames(after);
    WithoutKeeps(before, name);
    if Yaml(name) {
      forall s ensures s in candidate <==> s in after {
        assert s in candidate <==> s in Without(before, name) || s == Source(name, raw);
      }
      MergeIgnoresOrder(w, candidate, after);
    } else {
      AscendingIsUnique(after, before);
    }
  }
}
