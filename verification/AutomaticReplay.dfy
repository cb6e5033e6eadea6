/** Automatic observations: contiguous positions per class, each taken once, in any order. */
module AutomaticReplay {
  import opened Prelude

  type Bytes = seq<byte>
  type Hash = Bytes -> Digest

  datatype Class = Clock | Database | Environment | Filesystem | OutboundHttp | Queue | Randomness

  datatype DependencyOutcome = Response | Error

  type Key = (Class, nat)

  datatype RecordedObservation = RecordedObservation(outcome: DependencyOutcome, response: Bytes, requestDigest: Digest)

  type Observations = map<Key, RecordedObservation>

  /** Checks one request against one response: the class and outcome of a valid pair. */
  type PairCheck = (Bytes, Bytes) -> Result<(Class, DependencyOutcome)>

  const MAX_RECORD_BYTES := 65_536

  function FirstPosition(class_: Class): nat {
    match class_
    case Clock => 1
    case Environment => 1
    case _ => 0
  }

  // The order in which the sorted map hands out its keys.

  function Rank(class_: Class): nat {
    match class_
    case Clock => 0
    case Database => 1
    case Environment => 2
    case Filesystem => 3
    case OutboundHttp => 4
    case Queue => 5
    case Randomness => 6
  }

  predicate Before(a: Key, b: Key) {
    Rank(a.0) < Rank(b.0) || (a.0 == b.0 && a.1 < b.1)
  }

  lemma BeforeIsTotal(a: Key, b: Key)
    ensures a == b || Before(a, b) || Before(b, a)
  {
    assert Rank(a.0) == Rank(b.0) ==> a.0 == b.0;
  }

  lemma {:induction false} SmallestKey(keys: set<Key>) returns (k: Key)
    requires keys != {}
    ensures k in keys && forall other :: other in keys && other != k ==> Before(k, other)
    decreases |keys|
  {
    k :| k in keys;
    var rest := keys - {k};
    assert keys == rest + {k};
    if rest != {} {
      var smallest := SmallestKey(rest);
      BeforeIsTotal(k, smallest);
      if Before(smallest, k) {
        k := smallest;
      }
    }
  }

  /** Every class holds an initial segment of the positions. */
  predicate Contiguous(observations: Observations) {
    forall key, q: nat :: key in observations && q < key.1 ==> (key.0, q) in observations
  }

  function Expected(next: map<Class, nat>, class_: Class): nat {
    if class_ in next then next[class_] else 0
  }

  /** The keys still to come: everything at or after some point of the order, and nothing else. */
  ghost predicate Walked(observations: Observations, remaining: set<Key>, next: map<Class, nat>) {
    && remaining <= observations.Keys
    && (forall class_, q: nat :: q < Expected(next, class_) ==>
        (class_, q) in observations && (class_, q) !in remaining)
    && (forall key :: key in observations && key !in remaining ==> key.1 < Expected(next, key.0))
    && (forall a, b :: a in observations && a !in remaining && b in remaining ==> Before(a, b))
  }

  /** One pass over the sorted keys with a counter per class decides contiguity. */
  method RequireContiguousPositions(observations: Observations) returns (r: Result<Unit>)
    ensures r.Ok? <==> Contiguous(observations)
    ensures r.Err? ==> r.error == WorldNotClosed
  {
    var next: map<Class, nat> := map[];
    var remaining := observations.Keys;
    while remaining != {}
      invariant Walked(observations, remaining, next)
      decreases |remaining|
    {
      ghost var smallest := SmallestKey(remaining);
      assert SmallestIn(remaining, smallest);
      var key :| SmallestIn(remaining, key);
      if key.1 != Expected(next, key.0) {
        GapFound(observations, remaining, next, key);
        return Err(WorldNotClosed);
      }
      WalkStep(observations, remaining, next, key);
      next := next[key.0 := key.1 + 1];
      remaining := remaining - {key};
    }
    WalkedIsContiguous(observations, next);
    return Ok(Unit.Unit);
  }

  predicate SmallestIn(keys: set<Key>, k: Key) {
    k in keys && forall other :: other in keys && other != k ==> Before(k, other)
  }

  lemma GapFound(observations: Observations, remaining: set<Key>, next: map<Class, nat>, key: Key)
    requires Walked(observations, remaining, next) && SmallestIn(remaining, key)
    requires key.1 != Expected(next, key.0)
    ensures !Contiguous(observations)
  {
    var hole := (key.0, Expected(next, key.0));
    assert key.1 > Expected(next, key.0);
    assert !Before(key, hole) && hole != key;
    assert hole !in remaining;
  }

  lemma WalkStep(observations: Observations, remaining: set<Key>, next: map<Class, nat>, key: Key)
    requires Walked(observations, remaining, next) && SmallestIn(remaining, key)
    requires key.1 == Expected(next, key.0)
    ensures Walked(observations, remaining - {key}, next[key.0 := key.1 + 1])
  {
  }

  lemma WalkedIsContiguous(observations: Observations, next: map<Class, nat>)
    requires Walked(observations, {}, next)
    ensures Contiguous(observations)
  {
  }

  // Building a replay.

  datatype Entry = Entry(key: Key, record: RecordedObservation)

  /** The observations after every insertion, if no key came twice. */
  function Collected(entries: seq<Entry>): Option<Observations> {
    if entries == [] then Some(map[])
    else
      var last := entries[|entries| - 1];
      var before := Collected(entries[..|entries| - 1]);
      if before.None? || last.key in before.value then None else Some(before.value[last.key := last.record])
  }

  /** What `take_baseline` asks of the record at position zero. */
  predicate BaselineOk(hash: Hash, observations: Observations, class_: Class, request: Bytes) {
    && (class_, 0) in observations
    && observations[(class_, 0)].requestDigest == hash(request)
    && observations[(class_, 0)].outcome == Response
  }

  datatype BaselineRequests = BaselineRequests(processEnvironment: Bytes, wallClock: Bytes)

  /** The observations a replay starts with, or nothing when the capsule is refused. */
  ghost function Resolved(hash: Hash, baselines: BaselineRequests, entries: seq<Entry>): Option<Observations> {
    var all := Collected(entries);
    if all.None? || !Contiguous(all.value) || !BaselineOk(hash, all.value, Environment, baselines.processEnvironment)
      || !BaselineOk(hash, all.value, Clock, baselines.wallClock)
    then None
    else Some(all.value - {(Environment, 0), (Clock, 0)})
  }

  method Insert(observations: Observations, key: Key, record: RecordedObservation) returns (r: Result<Observations>)
    ensures r == if key in observations then Err(WorldNotClosed) else Ok(observations[key := record])
  {
    var previous := key in observations;
    var inserted := observations[key := record];
    return if previous then Err(WorldNotClosed) else Ok(inserted);
  }

  /** The record is gone from the map even when it is then refused. */
  method TakeBaseline(hash: Hash, observations: Observations, class_: Class, request: Bytes)
    returns (rest: Observations, r: Result<Bytes>)
    ensures rest == observations - {(class_, 0)}
    ensures r.Ok? <==> BaselineOk(hash, observations, class_, request)
    ensures r.Ok? ==> r.value == observations[(class_, 0)].response
  {
    rest := observations - {(class_, 0)};
    if (class_, 0) !in observations {
      assert rest == observations;
      return rest, Err(WorldNotClosed);
    }
    var record := observations[(class_, 0)];
    if record.requestDigest != hash(request) || record.outcome != Response {
      return rest, Err(WorldNotClosed);
    }
    return rest, Ok(record.response);
  }

  /** The last checks on the collected observations: contiguity, and the two baselines, which are taken out. */
  method TakeBaselines(hash: Hash, baselines: BaselineRequests, observations: Observations)
    returns (r: Result<(Observations, Bytes, Bytes)>)
    ensures
      r.Ok? <==>
        && Contiguous(observations) && BaselineOk(hash, observations, Environment, baselines.processEnvironment)
        && BaselineOk(hash, observations, Clock, baselines.wallClock)
    ensures
      r.Ok? ==>
        r.value == (observations - {(Environment, 0), (Clock, 0)}, observations[(Environment, 0)].response,
                    observations[(Clock, 0)].response)
  {
    var contiguous := RequireContiguousPositions(observations);
    if contiguous.Err? {
      return Err(contiguous.error);
    }
    var withoutEnvironment, environment := TakeBaseline(hash, observations, Environment, baselines.processEnvironment);
    if environment.Err? {
      return Err(environment.error);
    }
    var rest, clock := TakeBaseline(hash, withoutEnvironment, Clock, baselines.wallClock);
    if clock.Err? {
      return Err(clock.error);
    }
    assert rest == observations - {(Environment, 0), (Clock, 0)};
    return Ok((rest, environment.value, clock.value));
  }

  lemma {:induction false} RefusedPrefix(entries: seq<Entry>, n: nat)
    requires n <= |entries| && Collected(entries[..n]).None?
    ensures Collected(entries).None?
    decreases |entries|
  {
    if n == |entries| {
      assert entries[..n] == entries;
    } else {
      assert entries[..|entries| - 1][..n] == entries[..n];
      RefusedPrefix(entries[..|entries| - 1], n);
    }
  }

  // Consuming a replay.

  /** What one request gets out of the observations it meets. */
  function TakeOutcome(hash: Hash, pair: PairCheck, observations: Observations, key: Key, request: Bytes)
    : Result<RecordedObservation>
  {
    if key !in observations then Err(WorldNotClosed)
    else
      var recorded := observations[key];
      if |request| > MAX_RECORD_BYTES || hash(request) != recorded.requestDigest then Err(WorldNotClosed)
      else
        match pair(request, recorded.response)
        case Err(error) => Err(error)
        case Ok(observed) =>
          if observed != (key.0, recorded.outcome) then Err(WorldNotClosed) else Ok(recorded)
  }

  class AutomaticReplay {
    const hash: Hash
    const pair: PairCheck
    const environment: map<Bytes, Bytes>
    const boundaryClock: nat
    var observations: Observations

    constructor (hash: Hash, pair: PairCheck, environment: map<Bytes, Bytes>, boundaryClock: nat,
                 observations: Observations)
      ensures this.hash == hash && this.pair == pair && this.observations == observations
      ensures this.environment == environment && this.boundaryClock == boundaryClock
    {
      this.hash := hash;
      this.pair := pair;
      this.environment := environment;
      this.boundaryClock := boundaryClock;
      this.observations := observations;
    }

    method TakeResponse(class_: Class, position: nat, request: Bytes) returns (r: Result<RecordedObservation>)
      modifies this
      ensures r == TakeOutcome(hash, pair, old(observations), (class_, position), request)
      ensures observations == if r.Ok? then old(observations) - {(class_, position)} else old(observations)
      ensures
        r.Ok? <==>
          && (class_, position) in old(observations) && |request| <= 65_536
          && hash(request) == old(observations)[(class_, position)].requestDigest
          && pair(request, old(observations)[(class_, position)].response)
             == Ok((class_, old(observations)[(class_, position)].outcome))
      ensures r.Ok? ==> r.value == old(observations)[(class_, position)]
    {
      var key := (class_, position);
      if key !in observations {
        return Err(WorldNotClosed);
      }
      var recorded := observations[key];
      if |request| > MAX_RECORD_BYTES || hash(request) != recorded.requestDigest {
        return Err(WorldNotClosed);
      }
      var observed := pair(request, recorded.response);
      if observed.Err? {
        return Err(observed.error);
      }
      if observed.value.0 != class_ || observed.value.1 != recorded.outcome {
        return Err(WorldNotClosed);
      }
      observations := observations - {key};
      return Ok(recorded);
    }

    method RequireComplete() returns (r: Result<Unit>)
      ensures r.Ok? <==> observations == map[]
    {
      return if observations == map[] then Ok(Unit.Unit) else Err(WorldNotClosed);
    }
  }
}
