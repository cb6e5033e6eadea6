/** Whole replays of automatic observations. */
module AutomaticReplayRuns {
  import opened Prelude
  import opened AutomaticReplay

  // What an accepted replay holds.

  /** Exactly the positions `first..end` of one class. */
  ghost predicate Holds(observations: Observations, class_: Class, first: nat, end: nat) {
    forall position: nat :: (class_, position) in observations <==> first <= position < end
  }

  lemma {:induction false} SegmentEnd(observations: Observations, class_: Class, from: nat) returns (end: nat)
    requires Contiguous(observations)
    requires forall q: nat :: q < from ==> (class_, q) in observations
    ensures from <= end && Holds(observations, class_, 0, end)
    decreases |observations.Keys - set q | 0 <= q < from :: (class_, q)|
  {
    if (class_, from) in observations {
      var before := set q | 0 <= q < from :: (class_, q);
      var after := set q | 0 <= q < from + 1 :: (class_, q);
      assert (class_, from) in observations.Keys - before && (class_, from) in after;
      assert observations.Keys - after < observations.Keys - before;
      Subset(observations.Keys - after, observations.Keys - before);
      end := SegmentEnd(observations, class_, from + 1);
    } else {
      end := from;
      forall position: nat | position >= from ensures (class_, position) !in observations {
        var key := (class_, position);
        assert key in observations && from < key.1 ==> (key.0, from) in observations;
      }
    }
  }

  /**
   * An accepted replay holds, for every class, exactly the positions from the
   * class's first one up to some end; the two baselines existed and are gone.
   */
  lemma ResolvedHoldsSegments(hash: Hash, baselines: BaselineRequests, entries: seq<Entry>, class_: Class)
    returns (end: nat)
    requires Resolved(hash, baselines, entries).Some?
    ensures FirstPosition(class_) <= end
    ensures Holds(Resolved(hash, baselines, entries).value, class_, FirstPosition(class_), end)
  {
    var all := Collected(entries).value;
    end := SegmentEnd(all, class_, 0);
    assert FirstPosition(class_) == 1 ==> (class_, 0) in all;
    var rest := Resolved(hash, baselines, entries).value;
    forall position: nat
      ensures (class_, position) in rest <==> FirstPosition(class_) <= position < end
    {
      assert (class_, position) in rest <==>
        (class_, position) in all && (class_, position) !in {(Environment, 0), (Clock, 0)};
    }
  }

  // What a run leaves.

  datatype Take = Take(key: Key, request: Bytes)

  predicate Accepts(hash: Hash, pair: PairCheck, observations: Observations, take: Take) {
    TakeOutcome(hash, pair, observations, take.key, take.request).Ok?
  }

  function After(hash: Hash, pair: PairCheck, observations: Observations, take: Take): Observations {
    if Accepts(hash, pair, observations, take) then observations - {take.key} else observations
  }

  function Run(hash: Hash, pair: PairCheck, observations: Observations, takes: seq<Take>): Observations {
    if takes == [] then observations
    else After(hash, pair, Run(hash, pair, observations, takes[..|takes| - 1]), takes[|takes| - 1])
  }

  /** Some take of the run names this key and would be accepted by the whole replay. */
  predicate Asked(hash: Hash, pair: PairCheck, observations: Observations, takes: seq<Take>, key: Key) {
    exists k :: 0 <= k < |takes| && takes[k].key == key && Accepts(hash, pair, observations, takes[k])
  }

  lemma AskedGrows(hash: Hash, pair: PairCheck, observations: Observations, takes: seq<Take>, key: Key)
    requires takes != []
    ensures
      Asked(hash, pair, observations, takes, key) <==>
        || Asked(hash, pair, observations, takes[..|takes| - 1], key)
        || (takes[|takes| - 1].key == key && Accepts(hash, pair, observations, takes[|takes| - 1]))
  {
    var before := takes[..|takes| - 1];
    if Asked(hash, pair, observations, before, key) {
      var k :| 0 <= k < |before| && before[k].key == key && Accepts(hash, pair, observations, before[k]);
      assert takes[k] == before[k];
    }
    if Asked(hash, pair, observations, takes, key) {
      var k :| 0 <= k < |takes| && takes[k].key == key && Accepts(hash, pair, observations, takes[k]);
      assert k < |before| ==> before[k] == takes[k];
    }
  }

  /**
   * What a run leaves is what nobody asked for properly: an observation is gone
   * exactly when some take of the run named it with an acceptable request,
   * wherever in the run that take stood and whatever else was taken or refused.
   */
  lemma {:induction false} RemainderIsExact(
    hash: Hash, pair: PairCheck, observations: Observations, takes: seq<Take>, key: Key)
    ensures
      var rest := Run(hash, pair, observations, takes);
      && (key in rest <==> key in observations && !Asked(hash, pair, observations, takes, key))
      && (key in rest ==> rest[key] == observations[key])
    decreases |takes|
  {
    if takes != [] {
      var last := takes[|takes| - 1];
      RemainderIsExact(hash, pair, observations, takes[..|takes| - 1], key);
      RemainderIsExact(hash, pair, observations, takes[..|takes| - 1], last.key);
      AskedGrows(hash, pair, observations, takes, key);
    }
  }

  /** `require_complete` accepts exactly the runs that asked for every observation. */
  lemma CompleteIsExact(hash: Hash, pair: PairCheck, observations: Observations, takes: seq<Take>)
    ensures
      Run(hash, pair, observations, takes) == map[] <==>
        forall key :: key in observations ==> Asked(hash, pair, observations, takes, key)
  {
    var rest := Run(hash, pair, observations, takes);
    forall key
      ensures key in rest <==> key in observations && !Asked(hash, pair, observations, takes, key)
    {
      RemainderIsExact(hash, pair, observations, takes, key);
    }
    if rest != map[] {
      var key :| key in rest;
    }
  }

  /** No observation is handed out twice: after a successful take every later take of its key is refused. */
  lemma TakenOnce(hash: Hash, pair: PairCheck, observations: Observations, takes: seq<Take>, j: nat, k: nat)
    requires j < k < |takes| && takes[j].key == takes[k].key
    requires Accepts(hash, pair, Run(hash, pair, observations, takes[..j]), takes[j])
    ensures !Accepts(hash, pair, Run(hash, pair, observations, takes[..k]), takes[k])
  {
    RemainderIsExact(hash, pair, observations, takes[..j], takes[j].key);
    RemainderIsExact(hash, pair, observations, takes[..k], takes[k].key);
    assert takes[..k][j] == takes[j];
    assert Asked(hash, pair, observations, takes[..k], takes[k].key);
  }

  /** Any order will do: a take succeeds exactly when the whole replay accepts it and no earlier take did its work. */
  lemma TakeSucceedsExactly(hash: Hash, pair: PairCheck, observations: Observations, takes: seq<Take>, take: Take)
    ensures
      Accepts(hash, pair, Run(hash, pair, observations, takes), take) <==>
        Accepts(hash, pair, observations, take) && !Asked(hash, pair, observations, takes, take.key)
  {
    RemainderIsExact(hash, pair, observations, takes, take.key);
  }
}
