/** Nonces: the caller's source, the registry of one occurrence, and windows of draws. */
module SealNonces {
  import opened Prelude
  import opened SealModel

  type Nonce = b: Bytes | |b| == 12 witness [0, 0, 0, 0, 0, 0, 0, 0, 0, 0, 0, 0]

  /** The caller's source of nonces. */
  class NonceSource {
    const stream: nat -> Result<Nonce>
    var drawn: nat

    constructor (stream: nat -> Result<Nonce>)
      ensures this.stream == stream && drawn == 0
    {
      this.stream := stream;
      drawn := 0;
    }

    method NextNonce() returns (r: Result<Nonce>)
      modifies this
      ensures r == stream(old(drawn)) && drawn == old(drawn) + 1
    {
      r := stream(drawn);
      drawn := drawn + 1;
    }
  }

  /** The nonces one occurrence has used. */
  class NonceRegistry {
    var used: set<Nonce>

    constructor ()
      ensures used == {}
    {
      used := {};
    }

    method Register(nonce: Nonce) returns (r: Result<Unit>)
      modifies this
      ensures r.Ok? <==> nonce !in old(used)
      ensures used == old(used) + {nonce}
    {
      if nonce in used {
        return Err(ErrorCode.NonceReuse);
      }
      used := used + {nonce};
      return Ok(Unit.Unit);
    }
  }

  // The draws of an occurrence.

  type NonceStream = nat -> Result<Nonce>

  /** The next `n` draws from `from` on all yield nonces, pairwise different and not used before. */
  predicate FreshFor(stream: NonceStream, from: nat, n: nat, used: set<Nonce>) {
    && (forall k :: from <= k < from + n ==> stream(k).Ok? && stream(k).value !in used)
    && forall j, k :: from <= j < k < from + n ==> stream(j) != stream(k)
  }

  /** The nonce of draw `k`, for draws that yield one. */
  function NonceAt(stream: NonceStream, k: nat): Nonce {
    if stream(k).Ok? then stream(k).value else [0, 0, 0, 0, 0, 0, 0, 0, 0, 0, 0, 0]
  }

  /** The nonces of `n` draws. */
  function Drawn(stream: NonceStream, from: nat, n: nat): set<Nonce> {
    if n == 0 then {} else Drawn(stream, from, n - 1) + {NonceAt(stream, from + n - 1)}
  }

  lemma {:induction false} DrawnMembers(stream: NonceStream, from: nat, n: nat, nonce: Nonce)
    ensures nonce in Drawn(stream, from, n) <==> exists k :: from <= k < from + n && NonceAt(stream, k) == nonce
  {
    if n > 0 {
      DrawnMembers(stream, from, n - 1, nonce);
      if NonceAt(stream, from + n - 1) == nonce {
        assert from <= from + n - 1 < from + n;
      }
    }
  }

  lemma {:induction false} DrawnSplits(stream: NonceStream, from: nat, m: nat, n: nat)
    ensures Drawn(stream, from, m + n) == Drawn(stream, from, m) + Drawn(stream, from + m, n)
  {
    if n > 0 {
      DrawnSplits(stream, from, m, n - 1);
    }
  }

  lemma FreshParts(stream: NonceStream, from: nat, m: nat, n: nat, used: set<Nonce>)
    requires FreshFor(stream, from, m + n, used)
    ensures FreshFor(stream, from, m, used) && FreshFor(stream, from + m, n, used + Drawn(stream, from, m))
  {
    forall k | from + m <= k < from + m + n
      ensures stream(k).Ok? && stream(k).value !in used + Drawn(stream, from, m)
    {
      DrawnMembers(stream, from, m, stream(k).value);
    }
  }

  lemma FreshJoins(stream: NonceStream, from: nat, m: nat, n: nat, used: set<Nonce>)
    requires FreshFor(stream, from, m, used) && FreshFor(stream, from + m, n, used + Drawn(stream, from, m))
    ensures FreshFor(stream, from, m + n, used)
  {
    forall j, k | from <= j < k < from + (m + n)
      ensures stream(j) != stream(k)
    {
      if j < from + m <= k {
        DrawnMembers(stream, from, m, NonceAt(stream, j));
        assert stream(k).value !in used + Drawn(stream, from, m);
      }
    }
  }

  /** A window is fresh exactly when its two parts are, the second one after the first. */
  lemma FreshSplits(stream: NonceStream, from: nat, m: nat, n: nat, used: set<Nonce>)
    ensures
      FreshFor(stream, from, m + n, used) <==>
        FreshFor(stream, from, m, used) && FreshFor(stream, from + m, n, used + Drawn(stream, from, m))
  {
    if FreshFor(stream, from, m + n, used) {
      FreshParts(stream, from, m, n, used);
    }
    if FreshFor(stream, from, m, used) && FreshFor(stream, from + m, n, used + Drawn(stream, from, m)) {
      FreshJoins(stream, from, m, n, used);
    }
  }

  /** One more draw: fresh exactly when it yields a nonce that is in neither set. */
  lemma OneDraw(stream: NonceStream, from: nat, i: nat, used: set<Nonce>)
    requires FreshFor(stream, from, i, used)
    ensures
      FreshFor(stream, from, i + 1, used) <==>
        stream(from + i).Ok? && stream(from + i).value !in used + Drawn(stream, from, i)
    ensures Drawn(stream, from, i + 1) == Drawn(stream, from, i) + {NonceAt(stream, from + i)}
  {
    FreshSplits(stream, from, i, 1, used);
  }
}
