/**
 ServiceManager.php: services made on first use by factories that may pull other
 services, with a table of those under way to detect circular references.
 */
module Services {
  import opened Wrappers

  // A factory pulls its services in order, then makes its own or throws.
  datatype Factory = Factory(pulls: seq<string>, throws: bool)

  // Methods `mk...Service` and aliases: what does not change while services are made.
  datatype Wiring = Wiring(factories: map<string, Factory>, aliases: map<string, string>)

  // A service is known by the place of its making in the log, or was set from outside.
  datatype Service = Given(value: int) | Made(at: nat)

  datatype Event = FactoryDone(id: string) | Removed(id: string)

  datatype State = State(services: map<string, Service>, loading: seq<string>, log: seq<Event>)

  datatype Outcome = Ok(service: Service) | Circular(path: seq<string>) | NotFound(id: string) | Thrown(id: string)

  // Aliases

  predicate EndsIn(aliases: map<string, string>, id: string, n: nat)
    decreases n
  {
    id in aliases ==> n > 0 && EndsIn(aliases, aliases[id], n - 1)
  }

  ghost predicate Ends(aliases: map<string, string>, id: string) {
    exists n: nat :: EndsIn(aliases, id, n)
  }

  /** No chain of aliases goes on for ever. */
  ghost predicate Acyclic(aliases: map<string, string>) {
    forall id :: Ends(aliases, id)
  }

  ghost function Steps(aliases: map<string, string>, id: string): (n: nat)
    requires Acyclic(aliases)
    ensures EndsIn(aliases, id, n)
    ensures forall k: nat :: k < n ==> !EndsIn(aliases, id, k)
  {
    assert Ends(aliases, id);
    var n: nat :| EndsIn(aliases, id, n);
    Fewest(aliases, id, n)
  }

  ghost function Fewest(aliases: map<string, string>, id: string, n: nat): (m: nat)
    requires EndsIn(aliases, id, n)
    ensures EndsIn(aliases, id, m) && forall k: nat :: k < m ==> !EndsIn(aliases, id, k)
  {
    if k: nat :| k < n && EndsIn(aliases, id, k) then Fewest(aliases, id, k) else n
  }

  lemma {:induction false} StepsShrink(aliases: map<string, string>, id: string)
    requires Acyclic(aliases) && id in aliases
    ensures Steps(aliases, aliases[id]) < Steps(aliases, id)
  {
    var n := Steps(aliases, id);
    assert EndsIn(aliases, aliases[id], n - 1);
  }

  /** What an id stands for. */
  ghost function Target(aliases: map<string, string>, id: string): (target: string)
    requires Acyclic(aliases)
    ensures target !in aliases
    decreases Steps(aliases, id)
  {
    if id in aliases then StepsShrink(aliases, id); Target(aliases, aliases[id]) else id
  }

  // offsetGet and mkService, with the state they change passed along

  ghost function Pending(w: Wiring, loading: seq<string>): set<string> {
    set id | id in w.factories && id !in loading
  }

  lemma {:induction false} FewerPending(w: Wiring, loading: seq<string>, id: string)
    requires id in w.factories && id !in loading
    ensures |Pending(w, loading + [id])| < |Pending(w, loading)|
  {
    var less, more := Pending(w, loading + [id]), Pending(w, loading);
    assert less <= more - {id};
    SmallerSet(less, more - {id});
  }

  ghost function Get(w: Wiring, s: State, id: string): (o: (Outcome, State))
    requires Acyclic(w.aliases)
    ensures o.1.loading == s.loading && s.services.Keys <= o.1.services.Keys
    decreases |Pending(w, s.loading)|, 1
  {
    var target := Target(w.aliases, id);
    if target in s.services then (Ok(s.services[target]), s)
    else if target in s.loading then (Circular(s.loading + [target]), s)
    else if target !in w.factories then (NotFound(target), s)
    else
      FewerPending(w, s.loading, target);
      var (failure, end) := PullAll(w, s.(loading := s.loading + [target]), w.factories[target].pulls);
      var back := end.(loading := s.loading);
      if failure.Some? then (failure.value, back)
      else if w.factories[target].throws then (Thrown(target), back)
      else
        var service := Made(|back.log|);
        (Ok(service), back.(services := back.services[target := service], log := back.log + [FactoryDone(target)]))
  }

  /** What a factory pulls, up to the first exception. */
  ghost function PullAll(w: Wiring, s: State, ids: seq<string>): (o: (Option<Outcome>, State))
    requires Acyclic(w.aliases)
    ensures o.1.loading == s.loading && s.services.Keys <= o.1.services.Keys && (o.0.Some? ==> !o.0.value.Ok?)
    decreases |Pending(w, s.loading)|, 2, |ids|
  {
    if ids == [] then (None, s)
    else
      var (outcome, next) := Get(w, s, ids[0]);
      if !outcome.Ok? then (Some(outcome), next) else PullAll(w, next, ids[1..])
  }

  ghost function Exists(w: Wiring, s: State, id: string): bool
    requires Acyclic(w.aliases)
  {
    var target := Target(w.aliases, id);
    target in s.services || target in w.factories
  }

  ghost function Unset(w: Wiring, s: State, id: string): State
    requires Acyclic(w.aliases)
  {
    var target := Target(w.aliases, id);
    if target in s.services then s.(services := s.services - {target}, log := s.log + [Removed(target)]) else s
  }

  class ServiceManager {
    const factories: map<string, Factory>
    const aliases: map<string, string>
    var services: map<string, Service>
    var loading: seq<string>
    var log: seq<Event>

    constructor (factories: map<string, Factory>, aliases: map<string, string>, services: map<string, Service>)
      ensures Parts() == Wiring(factories, aliases) && Now() == State(services, [], [])
    {
      this.factories, this.aliases := factories, aliases;
      this.services, loading, log := services, [], [];
    }

    function Parts(): Wiring {
      Wiring(factories, aliases)
    }

    function Now(): State
      reads this
    {
      State(services, loading, log)
    }

    method Resolve(id: string) returns (target: string)
      requires Acyclic(aliases)
      ensures target == Target(aliases, id)
    {
      target := id;
      while target in aliases
        invariant Target(aliases, target) == Target(aliases, id)
        decreases Steps(aliases, target)
      {
        StepsShrink(aliases, target);
        target := aliases[target];
      }
    }

    method OffsetGet(id: string) returns (outcome: Outcome)
      requires Acyclic(aliases)
      modifies this
      ensures (outcome, Now()) == Get(Parts(), old(Now()), id)
      decreases |Pending(Parts(), loading)|, 4
    {
      var target := Resolve(id);
      if target in services {
        return Ok(services[target]);
      }
      if target in loading {
        return Circular(loading + [target]);
      }
      ghost var before := loading;
      if target in factories {
        FewerPending(Parts(), loading, target);
      } else {
        assert Pending(Parts(), loading + [target]) == Pending(Parts(), loading);
      }
      loading := loading + [target];
      outcome := MkService(target);
      if outcome.Ok? {
        services := services[target := outcome.service];
        log := log + [FactoryDone(target)];
      }
      assert loading[..|loading| - 1] == before;
      loading := loading[..|loading| - 1];
    }

    /** mkService: the service is stored by the caller. */
    method MkService(id: string) returns (outcome: Outcome)
      requires Acyclic(aliases)
      modifies this
      ensures loading == old(loading)
      ensures id !in factories ==> outcome == NotFound(id) && Now() == old(Now())
      ensures id in factories ==>
                var (failure, end) := PullAll(Parts(), old(Now()), factories[id].pulls);
                && Now() == end
                && outcome == (
                     if failure.Some? then failure.value
                     else if factories[id].throws then Thrown(id)
                     else Ok(Made(|end.log|)))
      decreases |Pending(Parts(), loading)|, if id in factories then 5 else 0
    {
      if id !in factories {
        return NotFound(id);
      }
      var pulls := factories[id].pulls;
      var i := 0;
      while i < |pulls|
        invariant i <= |pulls| && loading == old(loading)
        invariant PullAll(Parts(), Now(), pulls[i..]) == PullAll(Parts(), old(Now()), pulls)
      {
        assert pulls[i..][0] == pulls[i] && pulls[i..][1..] == pulls[i + 1..];
        var pulled := OffsetGet(pulls[i]);
        if !pulled.Ok? {
          return pulled;
        }
        i := i + 1;
      }
      if factories[id].throws {
        return Thrown(id);
      }
      return Ok(Made(|log|));
    }

    method OffsetExists(id: string) returns (yes: bool)
      requires Acyclic(aliases)
      ensures yes == Exists(Parts(), Now(), id)
    {
      var target := Resolve(id);
      return target in services || target in factories;
    }

    method OffsetUnset(id: string)
      requires Acyclic(aliases)
      modifies this
      ensures Now() == Unset(Parts(), old(Now()), id)
    {
      var exists' := OffsetExists(id);
      if exists' {
        var target := Resolve(id);
        if target in services {
          services := services - {target};
          log := log + [Removed(target)];
        }
      }
    }
  }

  // Which services can be made

  /** Made within `depth` nested factories, when those in `stored` need no making. */
  ghost predicate Buildable(w: Wiring, stored: set<string>, id: string, depth: nat)
    requires Acyclic(w.aliases)
    decreases depth
  {
    || id in stored
    || (&& depth > 0 && id in w.factories && !w.factories[id].throws
        && forall i :: 0 <= i < |w.factories[id].pulls| ==>
             Buildable(w, stored, Target(w.aliases, w.factories[id].pulls[i]), depth - 1))
  }

  lemma {:induction false} BuildableDeeper(w: Wiring, stored: set<string>, id: string, d: nat, e: nat)
    requires Acyclic(w.aliases) && Buildable(w, stored, id, d) && d <= e
    ensures Buildable(w, stored, id, e)
    decreases d
  {
    if id !in stored {
      var pulls := w.factories[id].pulls;
      forall i | 0 <= i < |pulls| ensures Buildable(w, stored, Target(w.aliases, pulls[i]), e - 1) {
        BuildableDeeper(w, stored, Target(w.aliases, pulls[i]), d - 1, e - 1);
      }
    }
  }

  /** What is stored later than `stored` could be made from it within `depth`. */
  ghost predicate MadeFrom(w: Wiring, stored: set<string>, s: State, depth: nat)
    requires Acyclic(w.aliases)
  {
    && stored <= s.services.Keys
    && forall id :: id in s.services ==> Buildable(w, stored, id, depth)
  }

  lemma {:induction false} GetMakes(w: Wiring, stored: set<string>, s: State, id: string, depth: nat) returns (d: nat)
    requires Acyclic(w.aliases) && MadeFrom(w, stored, s, depth)
    ensures var (outcome, end) := Get(w, s, id);
            && depth <= d && MadeFrom(w, stored, end, d)
            && (outcome.Ok? ==> Target(w.aliases, id) in end.services)
    decreases |Pending(w, s.loading)|, 1
  {
    var target := Target(w.aliases, id);
    d := depth;
    if target !in s.services && target !in s.loading && target in w.factories {
      FewerPending(w, s.loading, target);
      var inner := s.(loading := s.loading + [target]);
      var pulls := w.factories[target].pulls;
      var e := PullAllMakes(w, stored, inner, pulls, depth);
      var (failure, mid) := PullAll(w, inner, pulls);
      d := e + 1;
      var end := Get(w, s, id).1;
      if failure.None? {
        forall i | 0 <= i < |pulls| ensures Buildable(w, stored, Target(w.aliases, pulls[i]), e) {
          assert Target(w.aliases, pulls[i]) in mid.services;
        }
      }
      forall x | x in end.services ensures Buildable(w, stored, x, d) {
        if x in mid.services {
          BuildableDeeper(w, stored, x, e, d);
        }
      }
    }
  }

  lemma {:induction false} PullAllMakes(w: Wiring, stored: set<string>, s: State, ids: seq<string>, depth: nat)
    returns (d: nat)
    requires Acyclic(w.aliases) && MadeFrom(w, stored, s, depth)
    ensures var (failure, end) := PullAll(w, s, ids);
            && depth <= d && MadeFrom(w, stored, end, d) && s.services.Keys <= end.services.Keys
            && (failure.None? ==> forall i :: 0 <= i < |ids| ==> Target(w.aliases, ids[i]) in end.services)
    decreases |Pending(w, s.loading)|, 2, |ids|
  {
    d := depth;
    if ids != [] {
      d := GetMakes(w, stored, s, ids[0], depth);
      var (outcome, next) := Get(w, s, ids[0]);
      if outcome.Ok? {
        d := PullAllMakes(w, stored, next, ids[1..], d);
      }
    }
  }

  ghost function LeastDepth(w: Wiring, stored: set<string>, id: string, d: nat): (m: nat)
    requires Acyclic(w.aliases) && Buildable(w, stored, id, d)
    ensures m <= d && Buildable(w, stored, id, m)
    ensures forall k: nat :: k < m ==> !Buildable(w, stored, id, k)
  {
    if k: nat :| k < d && Buildable(w, stored, id, k) then LeastDepth(w, stored, id, k) else d
  }

  /** Nothing under way can be made within `depth`. */
  ghost predicate Above(w: Wiring, stored: set<string>, loading: seq<string>, depth: nat)
    requires Acyclic(w.aliases)
  {
    forall id, k: nat :: id in loading && k <= depth ==> !Buildable(w, stored, id, k)
  }

  lemma {:induction false} GetSucceeds(w: Wiring, stored: set<string>, s: State, id: string, d: nat)
    requires Acyclic(w.aliases) && stored <= s.services.Keys
    requires Buildable(w, stored, Target(w.aliases, id), d) && Above(w, stored, s.loading, d)
    ensures Get(w, s, id).0.Ok?
    decreases |Pending(w, s.loading)|, 1
  {
    var target := Target(w.aliases, id);
    if target !in s.services {
      var m := LeastDepth(w, stored, target, d);
      FewerPending(w, s.loading, target);
      PullAllSucceeds(w, stored, s.(loading := s.loading + [target]), w.factories[target].pulls, m - 1);
    }
  }

  lemma {:induction false} PullAllSucceeds(w: Wiring, stored: set<string>, s: State, ids: seq<string>, d: nat)
    requires Acyclic(w.aliases) && stored <= s.services.Keys && Above(w, stored, s.loading, d)
    requires forall i :: 0 <= i < |ids| ==> Buildable(w, stored, Target(w.aliases, ids[i]), d)
    ensures PullAll(w, s, ids).0.None?
    decreases |Pending(w, s.loading)|, 2, |ids|
  {
    if ids != [] {
      assert Buildable(w, stored, Target(w.aliases, ids[0]), d);
      GetSucceeds(w, stored, s, ids[0], d);
      var next := Get(w, s, ids[0]).1;
      forall i | 0 <= i < |ids[1..]| ensures Buildable(w, stored, Target(w.aliases, ids[1..][i]), d) {
        assert ids[1..][i] == ids[i + 1];
      }
      PullAllSucceeds(w, stored, next, ids[1..], d);
    }
  }

  // The same as a statement about the graph of services

  ghost predicate Pulls(w: Wiring, a: string, b: string)
    requires Acyclic(w.aliases)
  {
    a in w.factories && exists i :: 0 <= i < |w.factories[a].pulls| && Target(w.aliases, w.factories[a].pulls[i]) == b
  }

  /** A chain of services not yet stored, each pulled by the one before. */
  ghost predicate Path(w: Wiring, stored: set<string>, p: seq<string>)
    requires Acyclic(w.aliases)
  {
    && (forall i :: 0 <= i < |p| ==> p[i] !in stored)
    && (forall i :: 0 <= i < |p| - 1 ==> Pulls(w, p[i], p[i + 1]))
  }

  /** Every such chain ends with a working factory that is not met twice. */
  ghost predicate Reaches(w: Wiring, stored: set<string>, id: string)
    requires Acyclic(w.aliases)
  {
    forall p: seq<string> :: Path(w, stored, p) && p != [] && p[0] == id ==> EndsWell(w, p)
  }

  ghost predicate EndsWell(w: Wiring, p: seq<string>)
    requires p != []
  {
    var last := p[|p| - 1];
    last in w.factories && !w.factories[last].throws && last !in p[..|p| - 1]
  }

  lemma {:induction false} PathShrinks(w: Wiring, stored: set<string>, p: seq<string>, d: nat)
    requires Acyclic(w.aliases) && Path(w, stored, p) && p != [] && Buildable(w, stored, p[0], d)
    ensures |p| <= d && Buildable(w, stored, p[|p| - 1], d + 1 - |p|)
    decreases |p|
  {
    if |p| > 1 {
      assert Pulls(w, p[0], p[1]);
      var rest := p[1..];
      assert forall i :: 0 <= i < |rest| ==> rest[i] == p[i + 1];
      PathShrinks(w, stored, rest, d - 1);
    }
  }

  lemma {:induction false} BuildableReaches(w: Wiring, stored: set<string>, id: string, d: nat)
    requires Acyclic(w.aliases) && Buildable(w, stored, id, d)
    ensures Reaches(w, stored, id)
  {
    forall p: seq<string> | Path(w, stored, p) && p != [] && p[0] == id ensures EndsWell(w, p) {
      PathShrinks(w, stored, p, d);
      var last := p[|p| - 1];
      assert last !in stored;
      if last in p[..|p| - 1] {
        var i :| 0 <= i < |p| - 1 && p[i] == last;
        var loop := p[i..];
        assert forall k :: 0 <= k < |loop| ==> loop[k] == p[i + k];
        var m := LeastDepth(w, stored, last, d + 1 - |p|);
        PathShrinks(w, stored, loop, m);
      }
    }
  }

  ghost function Unmet(w: Wiring, p: seq<string>): set<string> {
    w.factories.Keys - set id | id in p
  }

  /** A pull that is not stored makes the chain longer, by a factory not met before. */
  lemma {:induction false} LongerPath(w: Wiring, stored: set<string>, p: seq<string>, next: string)
    requires Acyclic(w.aliases) && p != [] && Path(w, stored, p) && Reaches(w, stored, p[0])
    requires Pulls(w, p[|p| - 1], next) && next !in stored
    ensures Path(w, stored, p + [next]) && EndsWell(w, p + [next])
    ensures |Unmet(w, p + [next])| < |Unmet(w, p)|
  {
    hide Pulls;
    var longer := p + [next];
    forall k | 0 <= k < |longer| - 1 ensures Pulls(w, longer[k], longer[k + 1]) {
      assert k < |p| - 1 ==> Pulls(w, p[k], p[k + 1]);
    }
    assert Path(w, stored, longer) && longer[0] == p[0];
    assert EndsWell(w, longer);
    OneLessUnmet(w, p, next);
  }

  lemma {:induction false} OneLessUnmet(w: Wiring, p: seq<string>, next: string)
    requires EndsWell(w, p + [next])
    ensures |Unmet(w, p + [next])| < |Unmet(w, p)|
  {
    var longer := p + [next];
    assert longer[..|longer| - 1] == p;
    assert next in Unmet(w, p);
    assert Unmet(w, longer) == Unmet(w, p) - {next};
  }

  lemma {:induction false} ReachesBuildable(w: Wiring, stored: set<string>, p: seq<string>)
    requires Acyclic(w.aliases) && p != [] && Path(w, stored, p) && Reaches(w, stored, p[0])
    ensures Buildable(w, stored, p[|p| - 1], |Unmet(w, p)| + 1)
    decreases |Unmet(w, p)|
  {
    var last := p[|p| - 1];
    assert EndsWell(w, p);
    hide Path, Unmet, Reaches;
    var pulls := w.factories[last].pulls;
    forall i | 0 <= i < |pulls| ensures Buildable(w, stored, Target(w.aliases, pulls[i]), |Unmet(w, p)|) {
      var next := Target(w.aliases, pulls[i]);
      if next !in stored {
        assert Pulls(w, last, next);
        LongerPath(w, stored, p, next);
        ReachesBuildable(w, stored, p + [next]);
        BuildableDeeper(w, stored, next, |Unmet(w, p + [next])| + 1, |Unmet(w, p)|);
      }
    }
  }

  /**
   A service is given exactly when every service not yet stored that can be reached from
   it has a working factory and lies on no cycle.
   */
  lemma {:induction false} GivenExactlyWhere(w: Wiring, s: State, id: string)
    requires Acyclic(w.aliases) && s.loading == []
    ensures Get(w, s, id).0.Ok? <==> Reaches(w, s.services.Keys, Target(w.aliases, id))
  {
    var stored := s.services.Keys;
    var target := Target(w.aliases, id);
    if Get(w, s, id).0.Ok? {
      var d := GetMakes(w, stored, s, id, 0);
      assert Buildable(w, stored, target, d);
      BuildableReaches(w, stored, target, d);
    }
    if Reaches(w, stored, target) {
      if target !in stored {
        ReachesBuildable(w, stored, [target]);
        GetSucceeds(w, stored, s, id, |Unmet(w, [target])| + 1);
      }
    }
  }

  // Which exception comes

  /** No depth suffices. */
  ghost predicate Hopeless(w: Wiring, stored: set<string>, id: string)
    requires Acyclic(w.aliases)
  {
    forall d: nat :: !Buildable(w, stored, id, d)
  }

  /** The first of the pulled services that cannot be made. */
  ghost function FirstHopeless(w: Wiring, stored: set<string>, ids: seq<string>): Option<string>
    requires Acyclic(w.aliases)
  {
    if ids == [] then None
    else if Hopeless(w, stored, Target(w.aliases, ids[0])) then Some(Target(w.aliases, ids[0]))
    else FirstHopeless(w, stored, ids[1..])
  }

  // Each service after the first is the first one pulled by the one before that cannot be
  // made; only the last may be met twice.
  ghost predicate FailingChain(w: Wiring, stored: set<string>, chain: seq<string>)
    requires Acyclic(w.aliases)
  {
    && chain != [] && Hopeless(w, stored, chain[0])
    && (forall k :: 0 <= k < |chain| - 1 ==>
          chain[k] in w.factories && FirstHopeless(w, stored, w.factories[chain[k]].pulls) == Some(chain[k + 1]))
    && (forall i, k :: 0 <= i < k < |chain| - 1 ==> chain[i] != chain[k])
  }

  /** The chain cannot go on: it is back at one of its ids, or ends without a factory or at one that throws. */
  ghost predicate Stuck(w: Wiring, stored: set<string>, chain: seq<string>)
    requires Acyclic(w.aliases) && chain != []
  {
    var last := chain[|chain| - 1];
    || last in chain[..|chain| - 1]
    || last !in w.factories
    || FirstHopeless(w, stored, w.factories[last].pulls).None?
  }

  ghost function Blamed(w: Wiring, chain: seq<string>): Outcome
    requires chain != []
  {
    var last := chain[|chain| - 1];
    if last in chain[..|chain| - 1] then Circular(chain)
    else if last !in w.factories then NotFound(last)
    else Thrown(last)
  }

  lemma {:induction false} AllHopelessAbove(w: Wiring, stored: set<string>, loading: seq<string>)
    requires Acyclic(w.aliases) && forall x :: x in loading ==> Hopeless(w, stored, x)
    ensures forall d: nat :: Above(w, stored, loading, d)
  {
  }

  lemma {:induction false} ChainEnd(w: Wiring, stored: set<string>, before: seq<string>, last: string)
    requires Acyclic(w.aliases)
    ensures var chain := before + [last];
            && (Stuck(w, stored, chain) <==>
                last in before || last !in w.factories || FirstHopeless(w, stored, w.factories[last].pulls).None?)
            && Blamed(w, chain) ==
               if last in before then Circular(chain) else if last !in w.factories then NotFound(last) else Thrown(last)
  {
    var chain := before + [last];
    assert chain[..|chain| - 1] == before;
  }

  lemma {:induction false} ChainGoesOn(w: Wiring, stored: set<string>, before: seq<string>, last: string, next: string)
    requires Acyclic(w.aliases) && FailingChain(w, stored, before + [last])
    requires last !in before && last in w.factories
    requires FirstHopeless(w, stored, w.factories[last].pulls) == Some(next)
    ensures FailingChain(w, stored, before + [last] + [next])
  {
    var chain, longer := before + [last], before + [last] + [next];
    forall k | 0 <= k < |longer| - 1
      ensures longer[k] in w.factories
      ensures FirstHopeless(w, stored, w.factories[longer[k]].pulls) == Some(longer[k + 1])
    {
      assert k < |chain| - 1 ==> longer[k] == chain[k] && longer[k + 1] == chain[k + 1];
    }
    forall i, k | 0 <= i < k < |longer| - 1 ensures longer[i] != longer[k] {
      assert longer[i] == before[i];
    }
    assert longer[0] == chain[0];
  }

  /** The chain of what is under way goes on with the service asked for, up to the exception. */
  lemma {:induction false} GetBlames(w: Wiring, stored: set<string>, s: State, id: string, depth: nat)
    returns (chain: seq<string>)
    requires Acyclic(w.aliases) && MadeFrom(w, stored, s, depth)
    requires FailingChain(w, stored, s.loading + [Target(w.aliases, id)])
    requires forall x :: x in s.loading ==> Hopeless(w, stored, x)
    requires Hopeless(w, stored, Target(w.aliases, id))
    ensures s.loading + [Target(w.aliases, id)] <= chain
    ensures FailingChain(w, stored, chain) && Stuck(w, stored, chain) && Get(w, s, id).0 == Blamed(w, chain)
    decreases |Pending(w, s.loading)|, 1
  {
    hide FailingChain, Stuck, Blamed, FirstHopeless, Buildable;
    var target := Target(w.aliases, id);
    chain := s.loading + [target];
    ChainEnd(w, stored, s.loading, target);
    assert target !in s.services;
    if target !in s.loading && target in w.factories {
      FewerPending(w, s.loading, target);
      var inner := s.(loading := chain);
      var pulls := w.factories[target].pulls;
      var first := FirstHopeless(w, stored, pulls);
      if first.Some? {
        ChainGoesOn(w, stored, s.loading, target, first.value);
        chain := PullAllBlames(w, stored, inner, pulls, depth);
      } else {
        PullAllGives(w, stored, inner, pulls);
        if !w.factories[target].throws {
          HasHope(w, stored, target);
        }
      }
    }
  }

  lemma {:induction false} PullAllBlames(w: Wiring, stored: set<string>, s: State, ids: seq<string>, depth: nat)
    returns (chain: seq<string>)
    requires Acyclic(w.aliases) && MadeFrom(w, stored, s, depth) && FirstHopeless(w, stored, ids).Some?
    requires FailingChain(w, stored, s.loading + [FirstHopeless(w, stored, ids).value])
    requires forall x :: x in s.loading ==> Hopeless(w, stored, x)
    ensures s.loading <= chain
    ensures FailingChain(w, stored, chain) && Stuck(w, stored, chain)
    ensures PullAll(w, s, ids).0 == Some(Blamed(w, chain))
    decreases |Pending(w, s.loading)|, 2, |ids|
  {
    hide FailingChain, Stuck;
    if Hopeless(w, stored, Target(w.aliases, ids[0])) {
      FirstIsHopeless(w, stored, ids);
      chain := GetBlames(w, stored, s, ids[0], depth);
    } else {
      var d := GivesTheHopeful(w, stored, s, ids[0], depth);
      chain := PullAllBlames(w, stored, Get(w, s, ids[0]).1, ids[1..], d);
    }
  }

  lemma {:induction false} FirstIsHopeless(w: Wiring, stored: set<string>, ids: seq<string>)
    requires Acyclic(w.aliases) && ids != [] && Hopeless(w, stored, Target(w.aliases, ids[0]))
    ensures FirstHopeless(w, stored, ids) == Some(Target(w.aliases, ids[0]))
  {
  }

  lemma {:induction false} GivesTheHopeful(w: Wiring, stored: set<string>, s: State, id: string, depth: nat)
    returns (d: nat)
    requires Acyclic(w.aliases) && MadeFrom(w, stored, s, depth) && !Hopeless(w, stored, Target(w.aliases, id))
    requires forall x :: x in s.loading ==> Hopeless(w, stored, x)
    ensures Get(w, s, id).0.Ok? && MadeFrom(w, stored, Get(w, s, id).1, d)
  {
    var e: nat :| Buildable(w, stored, Target(w.aliases, id), e);
    AllHopelessAbove(w, stored, s.loading);
    GetSucceeds(w, stored, s, id, e);
    d := GetMakes(w, stored, s, id, depth);
  }

  lemma {:induction false} PullAllGives(w: Wiring, stored: set<string>, s: State, ids: seq<string>)
    requires Acyclic(w.aliases) && stored <= s.services.Keys && FirstHopeless(w, stored, ids).None?
    requires forall x :: x in s.loading ==> Hopeless(w, stored, x)
    ensures PullAll(w, s, ids).0.None?
    decreases |ids|
  {
    if ids != [] {
      var e: nat :| Buildable(w, stored, Target(w.aliases, ids[0]), e);
      AllHopelessAbove(w, stored, s.loading);
      GetSucceeds(w, stored, s, ids[0], e);
      PullAllGives(w, stored, Get(w, s, ids[0]).1, ids[1..]);
    }
  }

  /** A working factory whose pulls can all be made can make its service. */
  lemma {:induction false} HasHope(w: Wiring, stored: set<string>, id: string)
    requires Acyclic(w.aliases) && id in w.factories && !w.factories[id].throws
    requires FirstHopeless(w, stored, w.factories[id].pulls).None?
    ensures !Hopeless(w, stored, id)
  {
    var d := OneDepth(w, stored, w.factories[id].pulls);
    assert Buildable(w, stored, id, d + 1);
  }

  lemma {:induction false} OneDepth(w: Wiring, stored: set<string>, ids: seq<string>) returns (d: nat)
    requires Acyclic(w.aliases) && FirstHopeless(w, stored, ids).None?
    ensures forall i :: 0 <= i < |ids| ==> Buildable(w, stored, Target(w.aliases, ids[i]), d)
  {
    d := 0;
    if ids != [] {
      var e: nat :| Buildable(w, stored, Target(w.aliases, ids[0]), e);
      var rest := OneDepth(w, stored, ids[1..]);
      d := if e > rest then e else rest;
      BuildableDeeper(w, stored, Target(w.aliases, ids[0]), e, d);
      forall i | 0 < i < |ids| ensures Buildable(w, stored, Target(w.aliases, ids[i]), d) {
        assert ids[i] == ids[1..][i - 1];
        BuildableDeeper(w, stored, Target(w.aliases, ids[i]), rest, d);
      }
    }
  }

  /** There is one such chain from a service that goes on until it is stuck. */
  lemma {:induction false} ChainIsOne(w: Wiring, stored: set<string>, a: seq<string>, b: seq<string>, n: nat)
    requires Acyclic(w.aliases) && FailingChain(w, stored, a) && FailingChain(w, stored, b) && a[0] == b[0]
    requires Stuck(w, stored, a) && Stuck(w, stored, b) && 0 < n <= |a| && n <= |b| && a[..n] == b[..n]
    ensures a == b
    decreases |a| - n
  {
    assert a[..|a|] == a && b[..|b|] == b && a[n - 1] == a[..n][n - 1] == b[n - 1];
    if n < |a| {
      NotStuckYet(w, stored, a, n);
    }
    if n < |b| {
      NotStuckYet(w, stored, b, n);
    }
    if n < |a| && n < |b| {
      assert a[..n + 1] == a[..n] + [a[n]] && b[..n + 1] == b[..n] + [b[n]];
      ChainIsOne(w, stored, a, b, n + 1);
    }
  }

  lemma {:induction false} NotStuckYet(w: Wiring, stored: set<string>, chain: seq<string>, n: nat)
    requires Acyclic(w.aliases) && FailingChain(w, stored, chain) && 0 < n < |chain|
    ensures !Stuck(w, stored, chain[..n])
    ensures chain[n - 1] in w.factories
    ensures FirstHopeless(w, stored, w.factories[chain[n - 1]].pulls) == Some(chain[n])
  {
    var part := chain[..n];
    assert part[n - 1] == chain[n - 1] && chain[n - 1 + 1] == chain[n];
  }

  lemma {:induction false} StoredIsMade(w: Wiring, s: State)
    requires Acyclic(w.aliases)
    ensures MadeFrom(w, s.services.Keys, s, 0)
  {
  }

  /**
   What is not given fails with the exception that its chain of first failing pulls ends in: a
   circular reference, with the chain as its path, exactly when that returns to one of its
   ids; a missing service when it ends at an id without a factory; and what a factory throws.
   */
  lemma {:induction false} WhichException(w: Wiring, s: State, id: string, chain: seq<string>)
    requires Acyclic(w.aliases) && s.loading == []
    requires FailingChain(w, s.services.Keys, chain) && Stuck(w, s.services.Keys, chain)
    requires chain[0] == Target(w.aliases, id)
    ensures Get(w, s, id).0 == Blamed(w, chain)
  {
    hide Buildable, Stuck, Blamed;
    var stored := s.services.Keys;
    assert s.loading + [chain[0]] == [chain[0]];
    assert FailingChain(w, stored, [chain[0]]);
    StoredIsMade(w, s);
    var same := GetBlames(w, stored, s, id, 0);
    assert same[..1] == [same[0]] && chain[..1] == [chain[0]] && same[0] == chain[0];
    ChainIsOne(w, stored, chain, same, 1);
  }

  /** And there is such a chain for everything that is not given. */
  lemma {:induction false} FailuresHaveChains(w: Wiring, s: State, id: string) returns (chain: seq<string>)
    requires Acyclic(w.aliases) && s.loading == [] && !Get(w, s, id).0.Ok?
    ensures FailingChain(w, s.services.Keys, chain) && Stuck(w, s.services.Keys, chain)
    ensures chain[0] == Target(w.aliases, id)
  {
    var stored, target := s.services.Keys, Target(w.aliases, id);
    forall d: nat ensures !Buildable(w, stored, target, d) {
      if Buildable(w, stored, target, d) {
        GetSucceeds(w, stored, s, id, d);
      }
    }
    assert s.loading + [target] == [target];
    StoredIsMade(w, s);
    chain := GetBlames(w, stored, s, id, 0);
    assert chain[0] == [target][0];
  }

  /** A call leaves every stored service as it is. */
  lemma {:induction false} GetKeepsServices(w: Wiring, s: State, id: string)
    requires Acyclic(w.aliases)
    ensures forall x :: x in s.services ==> Get(w, s, id).1.services[x] == s.services[x]
    decreases |Pending(w, s.loading)|, 1
  {
    var target := Target(w.aliases, id);
    if target !in s.services && target !in s.loading && target in w.factories {
      FewerPending(w, s.loading, target);
      PullAllKeepsServices(w, s.(loading := s.loading + [target]), w.factories[target].pulls);
    }
  }

  lemma {:induction false} PullAllKeepsServices(w: Wiring, s: State, ids: seq<string>)
    requires Acyclic(w.aliases)
    ensures forall x :: x in s.services ==> PullAll(w, s, ids).1.services[x] == s.services[x]
    decreases |Pending(w, s.loading)|, 2, |ids|
  {
    if ids != [] {
      GetKeepsServices(w, s, ids[0]);
      var (outcome, next) := Get(w, s, ids[0]);
      if outcome.Ok? {
        PullAllKeepsServices(w, next, ids[1..]);
      }
    }
  }

  // What exists

  /** A missing service is one without a factory. */
  lemma {:induction false} MissingHasNoFactory(w: Wiring, s: State, id: string)
    requires Acyclic(w.aliases)
    ensures var outcome := Get(w, s, id).0; outcome.NotFound? ==> outcome.id !in w.factories
    decreases |Pending(w, s.loading)|, 1
  {
    var target := Target(w.aliases, id);
    if target !in s.services && target !in s.loading && target in w.factories {
      FewerPending(w, s.loading, target);
      PullsMissNoFactory(w, s.(loading := s.loading + [target]), w.factories[target].pulls);
    }
  }

  lemma {:induction false} PullsMissNoFactory(w: Wiring, s: State, ids: seq<string>)
    requires Acyclic(w.aliases)
    ensures var failure := PullAll(w, s, ids).0;
            failure.Some? && failure.value.NotFound? ==> failure.value.id !in w.factories
    decreases |Pending(w, s.loading)|, 2, |ids|
  {
    if ids != [] {
      MissingHasNoFactory(w, s, ids[0]);
      var (outcome, next) := Get(w, s, ids[0]);
      if outcome.Ok? {
        PullsMissNoFactory(w, next, ids[1..]);
      }
    }
  }

  /**
   `offsetExists` agrees with `offsetGet`: it is false exactly where that answers that the
   service itself is missing, and true of every service that has been given, until it is unset.
   */
  lemma {:induction false} ExistsAgrees(w: Wiring, s: State, id: string)
    requires Acyclic(w.aliases) && forall x :: x in s.loading ==> x in w.factories
    ensures !Exists(w, s, id) <==> Get(w, s, id).0 == NotFound(Target(w.aliases, id))
    ensures Get(w, s, id).0.Ok? ==> Exists(w, Get(w, s, id).1, id)
    ensures Exists(w, Unset(w, s, id), id) <==> Target(w.aliases, id) in w.factories
    ensures forall x :: x in s.services && x != Target(w.aliases, id) ==>
              x in Unset(w, s, id).services && Unset(w, s, id).services[x] == s.services[x]
  {
    MissingHasNoFactory(w, s, id);
  }

  /** Asking again gives the same service and changes nothing. */
  lemma {:induction false} SameServiceAgain(w: Wiring, s: State, id: string)
    requires Acyclic(w.aliases) && Get(w, s, id).0.Ok?
    ensures var (outcome, end) := Get(w, s, id);
            Get(w, end, id) == (outcome, end)
  {
  }

  // Whole runs

  datatype Call = GetCall(id: string) | SetCall(id: string, service: Service) | UnsetCall(id: string)

  ghost function Step(w: Wiring, s: State, call: Call): State
    requires Acyclic(w.aliases)
  {
    match call
    case GetCall(id) => Get(w, s, id).1
    case SetCall(id, service) => s.(services := s.services[id := service])
    case UnsetCall(id) => Unset(w, s, id)
  }

  ghost function Run(w: Wiring, s: State, calls: seq<Call>): State
    requires Acyclic(w.aliases)
    decreases |calls|
  {
    if calls == [] then s else Run(w, Step(w, s, calls[0]), calls[1..])
  }

  ghost predicate RemovedAfter(log: seq<Event>, id: string, i: nat) {
    exists k :: i < k < |log| && log[k] == Removed(id)
  }

  /** What was made and not removed since is stored, so a factory done twice had its service removed in between. */
  ghost predicate Tidy(s: State) {
    && (forall i, id :: 0 <= i < |s.log| && s.log[i] == FactoryDone(id) ==>
          id in s.services || RemovedAfter(s.log, id, i))
    && OnceEach(s.log)
  }

  ghost predicate OnceEach(log: seq<Event>) {
    forall i, j :: 0 <= i < j < |log| && log[i] == log[j] && log[i].FactoryDone? ==>
      RemovedAfter(log[..j], log[i].id, i)
  }

  lemma {:induction false} AppendTidy(s: State, event: Event, services: map<string, Service>)
    requires Tidy(s)
    requires event.FactoryDone? ==> event.id !in s.services && event.id in services && s.services.Keys <= services.Keys
    requires event.Removed? ==> s.services.Keys <= services.Keys + {event.id}
    ensures Tidy(s.(log := s.log + [event], services := services))
  {
    var n := |s.log|;
    var log := s.log + [event];
    assert log[n] == event;
    forall i, id | 0 <= i < |log| && log[i] == FactoryDone(id) ensures id in services || RemovedAfter(log, id, i) {
      if i < n && RemovedAfter(s.log, id, i) {
        var k :| i < k < n && s.log[k] == Removed(id);
        assert log[k] == Removed(id);
      }
    }
    forall i, j | 0 <= i < j < |log| && log[i] == log[j] && log[i].FactoryDone?
      ensures RemovedAfter(log[..j], log[i].id, i)
    {
      if j == n {
        assert log[..j] == s.log;
      } else {
        assert log[..j] == s.log[..j];
      }
    }
  }

  lemma {:induction false} GetTidy(w: Wiring, s: State, id: string)
    requires Acyclic(w.aliases) && Tidy(s)
    ensures Tidy(Get(w, s, id).1)
    decreases |Pending(w, s.loading)|, 1
  {
    var target := Target(w.aliases, id);
    if target !in s.services && target !in s.loading && target in w.factories {
      FewerPending(w, s.loading, target);
      var inner := s.(loading := s.loading + [target]);
      PullAllTidy(w, inner, w.factories[target].pulls);
      var (outcome, end) := Get(w, s, id);
      var mid := PullAll(w, inner, w.factories[target].pulls).1;
      if outcome.Ok? {
        PullAllKeepsOut(w, inner, w.factories[target].pulls, target);
        AppendTidy(mid.(loading := s.loading), FactoryDone(target), end.services);
      }
    }
  }

  lemma {:induction false} PullAllTidy(w: Wiring, s: State, ids: seq<string>)
    requires Acyclic(w.aliases) && Tidy(s)
    ensures Tidy(PullAll(w, s, ids).1)
    decreases |Pending(w, s.loading)|, 2, |ids|
  {
    if ids != [] {
      GetTidy(w, s, ids[0]);
      var (outcome, next) := Get(w, s, ids[0]);
      if outcome.Ok? {
        PullAllTidy(w, next, ids[1..]);
      }
    }
  }

  /** What is under way is not stored by anything it pulls. */
  lemma {:induction false} GetKeepsOut(w: Wiring, s: State, id: string, busy: string)
    requires Acyclic(w.aliases) && busy in s.loading && busy !in s.services
    ensures busy !in Get(w, s, id).1.services
    decreases |Pending(w, s.loading)|, 1
  {
    var target := Target(w.aliases, id);
    if target !in s.services && target !in s.loading && target in w.factories {
      FewerPending(w, s.loading, target);
      PullAllKeepsOut(w, s.(loading := s.loading + [target]), w.factories[target].pulls, busy);
    }
  }

  lemma {:induction false} PullAllKeepsOut(w: Wiring, s: State, ids: seq<string>, busy: string)
    requires Acyclic(w.aliases) && busy in s.loading && busy !in s.services
    ensures busy !in PullAll(w, s, ids).1.services
    decreases |Pending(w, s.loading)|, 2, |ids|
  {
    if ids != [] {
      GetKeepsOut(w, s, ids[0], busy);
      var (outcome, next) := Get(w, s, ids[0]);
      if outcome.Ok? {
        PullAllKeepsOut(w, next, ids[1..], busy);
      }
    }
  }

  lemma {:induction false} RunsAreTidy(w: Wiring, s: State, calls: seq<Call>)
    requires Acyclic(w.aliases) && Tidy(s)
    ensures Tidy(Run(w, s, calls)) && Run(w, s, calls).loading == s.loading
    decreases |calls|
  {
    if calls != [] {
      var next := Step(w, s, calls[0]);
      match calls[0] {
        case GetCall(id) => GetTidy(w, s, id);
        case SetCall(id, service) =>
        case UnsetCall(id) =>
          var target := Target(w.aliases, id);
          if target in s.services {
            AppendTidy(s, Removed(target), s.services - {target});
          }
      }
      RunsAreTidy(w, next, calls[1..]);
    }
  }

  /**
   In every run from a new manager, a factory that succeeded runs again only after its
   service is unset, and between calls nothing is left under way.
   */
  lemma {:induction false} FactoriesRunOnce(w: Wiring, services: map<string, Service>, calls: seq<Call>)
    requires Acyclic(w.aliases)
    ensures var end := Run(w, State(services, [], []), calls);
            OnceEach(end.log) && end.loading == []
  {
    RunsAreTidy(w, State(services, [], []), calls);
  }
}
