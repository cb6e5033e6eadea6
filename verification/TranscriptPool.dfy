/** The shared dependency transcript pool under every interleaving of its users. */
module TranscriptPool {
  import opened Prelude
  import opened MapSums

  datatype DependencyLimits = DependencyLimits(
    activeOperations: nat, candidateBytes: nat, concurrentCloseRequests: nat, cursorLifetimeMs: nat, durableBytes: nat,
    interactionsPerOperation: nat, memoryBytes: nat, objectBytes: nat, sessions: nat)

  const V1 := DependencyLimits(1_024, 8_388_608, 8, 60_000, 1_073_741_824, 1_024, 67_108_864, 8_388_608, 256)

  predicate ValidLimits(limits: DependencyLimits) {
    && 0 < limits.activeOperations <= 1_024
    && 0 < limits.candidateBytes <= 8_388_608
    && 0 < limits.concurrentCloseRequests <= 8
    && 0 < limits.cursorLifetimeMs <= 60_000
    && 0 < limits.durableBytes <= 1_073_741_824
    && 0 < limits.interactionsPerOperation <= 1_024
    && 0 < limits.memoryBytes <= 67_108_864
    && 0 < limits.objectBytes <= 8_388_608
    && 0 < limits.sessions <= 256
  }

  datatype PoolState = PoolState(
    activeCloseRequests: nat, activeOperations: nat, durableBytes: nat, memoryBytes: nat, sessions: nat)

  const EMPTY := PoolState(0, 0, 0, 0, 0)

  /** `HttpTranscriptProvider::validate_bounds`. */
  predicate ValidBounds(maximumInteractions: nat, maximumBytes: nat) {
    0 < maximumInteractions <= V1.interactionsPerOperation && 0 < maximumBytes <= V1.candidateBytes
  }

  /** The locked section of `open`. */
  function OpenSection(limits: DependencyLimits, state: PoolState, maximumInteractions: nat,
                       bytes: nat): Result<PoolState> {
    if !ValidBounds(maximumInteractions, bytes) then Err(SchemaInvalid)
    else if maximumInteractions > limits.interactionsPerOperation || bytes > limits.candidateBytes
      || state.sessions >= limits.sessions
      || state.activeOperations >= limits.activeOperations
      || state.memoryBytes + bytes > limits.memoryBytes
      || state.durableBytes + bytes > limits.durableBytes
    then Err(RuntimeQuota)
    else Ok(PoolState(state.activeCloseRequests, state.activeOperations + 1, state.durableBytes + bytes,
                      state.memoryBytes + bytes, state.sessions + 1))
  }

  /** The locked section of `reserve_close`. */
  function CloseSection(limits: DependencyLimits, state: PoolState): Result<PoolState> {
    if state.activeCloseRequests >= limits.concurrentCloseRequests then Err(RuntimeQuota)
    else Ok(state.(activeCloseRequests := state.activeCloseRequests + 1))
  }

  /** The locked section of dropping an operation reservation. */
  function DropOperationSection(state: PoolState, bytes: nat): PoolState {
    PoolState(state.activeCloseRequests, SaturatingSub(state.activeOperations, 1),
              SaturatingSub(state.durableBytes, bytes), SaturatingSub(state.memoryBytes, bytes),
              SaturatingSub(state.sessions, 1))
  }

  /** The locked section of dropping a close reservation. */
  function DropCloseSection(state: PoolState): PoolState {
    state.(activeCloseRequests := SaturatingSub(state.activeCloseRequests, 1))
  }

  // The system: one pool, any number of providers and threads.

  type Token = nat

  /**
   * `live` holds every operation reservation whose drop has not finished:
   * either in its provider's slot or taken out by some thread. `closing` holds
   * the close guards that threads own.
   */
  datatype System = System(
    state: PoolState, live: map<Token, nat>, slots: set<Token>, taken: set<Token>, closing: set<Token>, next: Token)

  /**
   * One critical section. `Open` and `ReserveClose` are the pool's own
   * operations; `Take` empties a provider's slot, which close, discard, expiry
   * and the provider's own drop all do; the drops finish under the pool lock.
   * Cloning the pool changes nothing.
   */
  datatype Action =
    | Open(maximumInteractions: nat, bytes: nat)
    | Take(token: Token)
    | DropOperation(token: Token)
    | ReserveClose
    | DropClose(guard: Token)

  /** A disabled section (an empty slot, a guard nobody owns) changes nothing. */
  function Apply(limits: DependencyLimits, s: System, action: Action): System {
    match action
    case Open(maximumInteractions, bytes) =>
      (match OpenSection(limits, s.state, maximumInteractions, bytes)
       case Err(_) => s
       case Ok(state) =>
         s.(state := state, live := s.live[s.next := bytes], slots := s.slots + {s.next}, next := s.next + 1))
    case Take(token) =>
      if token in s.slots then s.(slots := s.slots - {token}, taken := s.taken + {token}) else s
    case DropOperation(token) =>
      if token in s.taken && token in s.live then
        s.(state := DropOperationSection(s.state, s.live[token]), live := s.live - {token}, taken := s.taken - {token})
      else s
    case ReserveClose =>
      (match CloseSection(limits, s.state)
       case Err(_) => s
       case Ok(state) => s.(state := state, closing := s.closing + {s.next}, next := s.next + 1))
    case DropClose(guard) =>
      if guard in s.closing then s.(state := DropCloseSection(s.state), closing := s.closing - {guard}) else s
  }

  function Run(limits: DependencyLimits, s: System, actions: seq<Action>): System
    decreases |actions|
  {
    if actions == [] then s else Run(limits, Apply(limits, s, actions[0]), actions[1..])
  }

  const START := System(EMPTY, map[], {}, {}, {}, 0)

  function Bytes(bytes: nat): nat { bytes }

  /** The counters are exactly what the live reservations and close guards add up to, within every limit. */
  ghost predicate Accounted(limits: DependencyLimits, s: System) {
    && s.state.sessions == |s.live| && s.state.activeOperations == |s.live|
    && s.state.memoryBytes == Sum(s.live, Bytes) && s.state.durableBytes == Sum(s.live, Bytes)
    && s.state.activeCloseRequests == |s.closing|
    && s.live.Keys == s.slots + s.taken && s.slots !! s.taken
    && (forall t :: t in s.live || t in s.closing ==> t < s.next)
    && s.state.sessions <= limits.sessions && s.state.activeOperations <= limits.activeOperations
    && s.state.memoryBytes <= limits.memoryBytes && s.state.durableBytes <= limits.durableBytes
    && s.state.activeCloseRequests <= limits.concurrentCloseRequests
  }

  lemma OpenKeepsAccounted(limits: DependencyLimits, s: System, maximumInteractions: nat, bytes: nat)
    requires Accounted(limits, s)
    ensures Accounted(limits, Apply(limits, s, Open(maximumInteractions, bytes)))
  {
    if OpenSection(limits, s.state, maximumInteractions, bytes).Ok? {
      var t := Apply(limits, s, Open(maximumInteractions, bytes));
      SumInsert(s.live, s.next, bytes, Bytes);
      assert t.live.Keys == t.slots + t.taken;
    }
  }

  lemma DropKeepsAccounted(limits: DependencyLimits, s: System, token: Token)
    requires Accounted(limits, s)
    ensures Accounted(limits, Apply(limits, s, DropOperation(token)))
  {
    if token in s.taken {
      var t := Apply(limits, s, DropOperation(token));
      assert token in s.live.Keys;
      SumRemove(s.live, token, Bytes);
      RemovalShrinks(s.live, token);
      assert t.live.Keys == t.slots + t.taken;
    }
  }

  lemma TakeKeepsAccounted(limits: DependencyLimits, s: System, token: Token)
    requires Accounted(limits, s)
    ensures Accounted(limits, Apply(limits, s, Take(token)))
  {
    if token in s.slots {
      assert (s.slots - {token}) + (s.taken + {token}) == s.slots + s.taken;
    }
  }

  lemma CloseKeepsAccounted(limits: DependencyLimits, s: System, action: Action)
    requires Accounted(limits, s) && (action.ReserveClose? || action.DropClose?)
    ensures Accounted(limits, Apply(limits, s, action))
  {
    if action.ReserveClose? {
      assert |s.closing + {s.next}| == |s.closing| + 1;
    } else if action.guard in s.closing {
      assert |s.closing - {action.guard}| == |s.closing| - 1;
    }
  }

  lemma ApplyKeepsAccounted(limits: DependencyLimits, s: System, action: Action)
    requires Accounted(limits, s)
    ensures Accounted(limits, Apply(limits, s, action))
  {
    match action {
      case Open(maximumInteractions, bytes) => OpenKeepsAccounted(limits, s, maximumInteractions, bytes);
      case Take(token) => TakeKeepsAccounted(limits, s, token);
      case DropOperation(token) => DropKeepsAccounted(limits, s, token);
      case ReserveClose => CloseKeepsAccounted(limits, s, action);
      case DropClose(_) => CloseKeepsAccounted(limits, s, action);
    }
  }

  /** A token already handed out can only disappear. */
  lemma ApplyRevivesNothing(limits: DependencyLimits, s: System, action: Action, token: Token)
    requires token < s.next && token !in s.live && token !in s.slots && token !in s.taken
    ensures
      var t := Apply(limits, s, action);
      s.next <= t.next && token !in t.live && token !in t.slots && token !in t.taken
  {
  }

  /** The counters stay exact and bounded in every reachable state, whatever the interleaving. */
  lemma {:induction false} RunKeepsAccounted(limits: DependencyLimits, s: System, actions: seq<Action>)
    requires Accounted(limits, s)
    ensures Accounted(limits, Run(limits, s, actions))
    decreases |actions|
  {
    if actions != [] {
      ApplyKeepsAccounted(limits, s, actions[0]);
      RunKeepsAccounted(limits, Apply(limits, s, actions[0]), actions[1..]);
    }
  }

  lemma PoolIsAlwaysAccounted(limits: DependencyLimits, actions: seq<Action>)
    ensures Accounted(limits, Run(limits, START, actions))
  {
    SumEmpty<Token, nat>(Bytes);
    RunKeepsAccounted(limits, START, actions);
  }

  /** No drop ever saturates: each subtraction takes away what its reservation added. */
  lemma DropsAreExact(limits: DependencyLimits, actions: seq<Action>, token: Token)
    ensures
      var s := Run(limits, START, actions);
      token in s.taken ==>
        && token in s.live
        && s.state.sessions >= 1 && s.state.activeOperations >= 1
        && s.state.memoryBytes >= s.live[token] && s.state.durableBytes >= s.live[token]
        && DropOperationSection(s.state, s.live[token]) ==
             PoolState(s.state.activeCloseRequests, s.state.activeOperations - 1, s.state.durableBytes - s.live[token],
                       s.state.memoryBytes - s.live[token], s.state.sessions - 1)
    ensures
      var s := Run(limits, START, actions);
      token in s.closing ==> s.state.activeCloseRequests >= 1
  {
    var s := Run(limits, START, actions);
    PoolIsAlwaysAccounted(limits, actions);
    if token in s.taken {
      SumCovers(s.live, token, Bytes);
      assert token in s.live.Keys;
    }
  }

  lemma {:induction false} ReleasedStaysReleased(limits: DependencyLimits, s: System, actions: seq<Action>,
                                                 token: Token)
    requires token < s.next && token !in s.live && token !in s.slots && token !in s.taken
    ensures
      var t := Run(limits, s, actions);
      token !in t.live && token !in t.slots && token !in t.taken
    decreases |actions|
  {
    if actions != [] {
      ApplyRevivesNothing(limits, s, actions[0], token);
      ReleasedStaysReleased(limits, Apply(limits, s, actions[0]), actions[1..], token);
    }
  }

  /** A reservation whose drop has finished is never dropped again, whatever runs afterwards. */
  lemma ReleasedOnce(limits: DependencyLimits, before: seq<Action>, token: Token, after: seq<Action>)
    requires token in Run(limits, START, before).taken
    ensures
      var dropped := Apply(limits, Run(limits, START, before), DropOperation(token));
      var s := Run(limits, dropped, after);
      Apply(limits, s, DropOperation(token)) == s && Apply(limits, s, Take(token)).taken == s.taken
  {
    PoolIsAlwaysAccounted(limits, before);
    var s := Run(limits, START, before);
    assert token in s.live.Keys;
    var dropped := Apply(limits, s, DropOperation(token));
    ReleasedStaysReleased(limits, dropped, after, token);
  }

  /** The counters read zero exactly when every reservation and close guard has been dropped. */
  lemma QuietPoolIsEmpty(limits: DependencyLimits, actions: seq<Action>)
    ensures
      var s := Run(limits, START, actions);
      s.state == EMPTY <==> s.live == map[] && s.closing == {}
  {
    PoolIsAlwaysAccounted(limits, actions);
    SumEmpty<Token, nat>(Bytes);
  }

  /**
   * Within valid limits no counter addition of `open` can leave u64, so an
   * `open` that is refused was refused by a limit and never by the arithmetic.
   */
  lemma AdditionsFit(limits: DependencyLimits, actions: seq<Action>, bytes: nat)
    requires ValidLimits(limits) && bytes <= limits.candidateBytes
    ensures
      var s := Run(limits, START, actions);
      && s.state.memoryBytes + bytes <= U64_MAX && s.state.durableBytes + bytes <= U64_MAX
      && s.state.sessions + 1 <= U64_MAX && s.state.activeOperations + 1 <= U64_MAX
      && s.state.activeCloseRequests + 1 <= U64_MAX
  {
    PoolIsAlwaysAccounted(limits, actions);
  }
}
